/** Deterministic guest addresses, subnets and bridges. */
module Network {
  import opened Bytes
  import opened Fnv
  import opened Hexadecimal
  import opened Numbers

  /** `NamedNetworkSupernet`; addresses are their 32-bit values. */
  datatype Supernet = Supernet(base: nat, prefix: nat)

  /** What `parse` lets through: a prefix from 8 to 24 and no base bit below it. */
  predicate Valid(n: Supernet) {
    8 <= n.prefix <= 24 && n.base <= U32_MAX && n.base % Pow2(32 - n.prefix) == 0
  }

  datatype GuestLink = GuestLink(guest: nat, gateway: nat, netmask: nat)

  /** `cid.saturating_sub(FIRST_GUEST_CID)` */
  function Offset(cid: nat): nat {
    if cid < FIRST_GUEST_CID then 0 else cid - FIRST_GUEST_CID
  }

  /** The low 16 bits of the hash under the mask of the subnet bits. */
  function SubnetIndex(n: Supernet, name: seq<Byte>): nat
    requires Valid(n)
  {
    Hash(name) % Pow2(16) % Pow2(24 - n.prefix)
  }

  /** `link_for_named_network` */
  function NamedLink(n: Supernet, name: seq<Byte>, cid: nat): GuestLink
    requires Valid(n)
  {
    var subnetBase := n.base + SubnetIndex(n, name) * 256;
    GuestLink(subnetBase + 2 + Offset(cid) % 253, subnetBase + 1, 0xFFFF_FF00)
  }

  function Address(a: nat, b: nat, c: nat, d: nat): nat {
    ((a * 256 + b) * 256 + c) * 256 + d
  }

  /** `GuestNetworkLink::for_cid` */
  function PointToPoint(cid: nat): GuestLink {
    var index := Offset(cid);
    var third, fourth := index / 64 % 256, index % 64 * 4 % 256;
    GuestLink(Address(172, 20, third, fourth + 2), Address(172, 20, third, fourth + 1), 0xFFFF_FFFC)
  }

  /** The default supernet, 100.64.0.0/10. */
  function DefaultSupernet(): Supernet {
    Supernet(Address(100, 64, 0, 0), 10)
  }

  /** `shared_network_bridge_name` */
  function BridgeName(name: seq<Byte>): string {
    "vsrbr" + Hex(Hash(name) % Pow2(32), 8)
  }

  // ── Addresses of a named network ────────────────────────────────────

  lemma AlignedRoom(base: nat, m: nat, p: nat)
    requires m > 0 && base % m == 0 && base < m * p
    ensures base + m <= m * p
  {
    var q := base / m;
    assert base == q * m;
    assert q < p;
    assert (q + 1) * m <= p * m;
  }

  lemma AlignedFloor(base: nat, m: nat, x: nat)
    requires m > 0 && base % m == 0 && x < m
    ensures (base + x) % m == x
  {
    ModIs(base + x, m, base / m, x);
  }

  lemma AlignedFurther(base: nat, m: nat, s: nat)
    requires s > 0 && m == 256 * s && base % m == 0
    ensures base % 256 == 0
  {
    var q := base / m;
    assert base == 256 * (q * s);
  }

  lemma SubnetBits(n: Supernet)
    requires Valid(n)
    ensures Pow2(32 - n.prefix) == 256 * Pow2(24 - n.prefix) && n.base % 256 == 0
    ensures n.base + Pow2(32 - n.prefix) <= U32_MAX + 1
  {
    Pow2Values();
    Pow2Sum(8, 24 - n.prefix);
    Pow2Sum(32 - n.prefix, n.prefix);
    AlignedFurther(n.base, Pow2(32 - n.prefix), Pow2(24 - n.prefix));
    AlignedRoom(n.base, Pow2(32 - n.prefix), Pow2(n.prefix));
  }

  /** The address with its host bits cleared. */
  function NetworkOf(address: nat, prefix: nat): int
    requires prefix <= 32
  {
    address - address % Pow2(32 - prefix)
  }

  /** A host of the name's subnet: its address fits and lies in the supernet. */
  lemma HostAddress(n: Supernet, name: seq<Byte>, host: nat)
    requires Valid(n) && host < 256
    ensures var address := n.base + SubnetIndex(n, name) * 256 + host;
            && address <= U32_MAX && address % 256 == host && address / 256 == n.base / 256 + SubnetIndex(n, name)
            && NetworkOf(address, n.prefix) == n.base
  {
    SubnetBits(n);
    HostInSubnet(n.base, Pow2(24 - n.prefix), SubnetIndex(n, name), host);
  }

  /**
   * No sum leaves 32 bits; guest and gateway lie in one /24 of the supernet, the gateway at its .1 and
   * the guest never at .0, .1 or .255.
   */
  lemma NamedLinkInSupernet(n: Supernet, name: seq<Byte>, cid: nat)
    requires Valid(n)
    ensures var link := NamedLink(n, name, cid);
            && link.gateway < link.guest <= U32_MAX
            && link.guest / 256 == link.gateway / 256
            && link.gateway % 256 == 1 && 2 <= link.guest % 256 <= 254 && link.netmask == U32_MAX + 1 - 256
            && NetworkOf(link.guest, n.prefix) == NetworkOf(link.gateway, n.prefix) == n.base
  {
    HostAddress(n, name, 2 + Offset(cid) % 253);
    HostAddress(n, name, 1);
  }

  lemma HostInSubnet(base: nat, s: nat, index: nat, host: nat)
    requires base % 256 == 0 && index < s && host < 256 && base % (256 * s) == 0
    ensures var address := base + index * 256 + host;
            && address < base + 256 * s && address / 256 == base / 256 + index && address % 256 == host
            && address - address % (256 * s) == base
  {
    AlignedFloor(base, 256 * s, index * 256 + host);
    ModIs(base + index * 256 + host, 256, base / 256 + index, host);
  }

  /** Two guests get one address exactly when their networks share a subnet and their offsets agree modulo 253. */
  lemma NamedAddressesShared(n: Supernet, a: seq<Byte>, c: nat, b: seq<Byte>, d: nat)
    requires Valid(n)
    ensures NamedLink(n, a, c).guest == NamedLink(n, b, d).guest
       <==> SubnetIndex(n, a) == SubnetIndex(n, b) && Offset(c) % 253 == Offset(d) % 253
    ensures NamedLink(n, a, c).gateway == NamedLink(n, b, d).gateway <==> SubnetIndex(n, a) == SubnetIndex(n, b)
  {
  }

  lemma OffsetsModulo(c: nat, d: nat, m: nat)
    requires c >= FIRST_GUEST_CID && d >= FIRST_GUEST_CID && m > 0
    ensures Offset(c) % m == Offset(d) % m <==> c % m == d % m
  {
    ShiftModulo(c - 3, d - 3, 3, m);
  }

  lemma ShiftModulo(x: nat, y: nat, k: nat, m: nat)
    requires m > 0
    ensures x % m == y % m <==> (x + k) % m == (y + k) % m
  {
    var q := x / m - y / m;
    var p := (x + k) / m - (y + k) / m;
    assert x - y == q * m + (x % m - y % m);
    assert x - y == p * m + ((x + k) % m - (y + k) % m);
    MultipleSmall(q - p, m, (x + k) % m - (y + k) % m, x % m - y % m);
  }

  lemma MultipleSmall(d: int, m: nat, a: int, b: int)
    requires m > 0 && d * m == a - b && 0 - m < a < m && 0 - m < b < m
    ensures a == 0 <==> b == 0
  {
    assert d >= 1 ==> d * m >= m;
    assert d <= -1 ==> d * m <= 0 - m;
  }

  /** Guest CIDs on one network share an address exactly when they agree modulo 253. */
  lemma NamedCids(n: Supernet, name: seq<Byte>, c: nat, d: nat)
    requires Valid(n) && c >= FIRST_GUEST_CID && d >= FIRST_GUEST_CID
    ensures NamedLink(n, name, c) == NamedLink(n, name, d) <==> c % 253 == d % 253
  {
    OffsetsModulo(c, d, 253);
  }

  // ── Point-to-point links ────────────────────────────────────────────

  /** Gateway and guest are the two hosts of one /30 of 172.20.0.0/16, and no octet overflows. */
  lemma PointToPointIsPair(cid: nat)
    ensures var index := Offset(cid); index % 64 * 4 + 2 <= 254
    ensures var link := PointToPoint(cid);
            && link.guest / 4 == link.gateway / 4 && link.gateway % 4 == 1 && link.guest % 4 == 2
            && link.netmask == U32_MAX + 1 - 4
            && link.guest / 65536 == link.gateway / 65536 == Address(0, 0, 172, 20)
  {
    PairArithmetic(Offset(cid) / 64 % 256, Offset(cid) % 64, 1);
    PairArithmetic(Offset(cid) / 64 % 256, Offset(cid) % 64, 2);
  }

  lemma PairArithmetic(third: nat, pair: nat, host: nat)
    requires third < 256 && pair < 64 && host < 4
    ensures pair * 4 % 256 == pair * 4
    ensures var address := Address(172, 20, third, pair * 4 + host);
            && address % 4 == host && address / 4 == Address(0, 0, 172, 20) * 16384 + third * 64 + pair
            && address / 65536 == Address(0, 0, 172, 20)
  {
    ModIs(Address(172, 20, third, pair * 4 + host), 4, (44052 * 256 + third) * 64 + pair, host);
  }

  lemma PairIndex(index: nat)
    ensures index / 64 % 256 * 64 + index % 64 == index % 16384
  {
  }

  /** Guest CIDs share a /30 exactly when they agree modulo 16384. */
  lemma PointToPointCids(c: nat, d: nat)
    requires c >= FIRST_GUEST_CID && d >= FIRST_GUEST_CID
    ensures PointToPoint(c).guest / 4 == PointToPoint(d).guest / 4 <==> c % 16384 == d % 16384
  {
    PairIndex(Offset(c));
    PairIndex(Offset(d));
    PairOf(c);
    PairOf(d);
    OffsetsModulo(c, d, 16384);
  }

  lemma PairOf(cid: nat)
    ensures PointToPoint(cid).guest / 4
         == Address(0, 0, 172, 20) * 16384 + Offset(cid) / 64 % 256 * 64 + Offset(cid) % 64
  {
    PairArithmetic(Offset(cid) / 64 % 256, Offset(cid) % 64, 2);
  }

  // ── From one CID to the next ────────────────────────────────────────

  lemma NextModulo(x: nat, m: nat)
    requires m > 1
    ensures (x + 1) % m == if x % m == m - 1 then 0 else x % m + 1
  {
    ModIs(x + 1, m, if x % m == m - 1 then x / m + 1 else x / m, if x % m == m - 1 then 0 else x % m + 1);
  }

  lemma LastHost(n: Supernet, name: seq<Byte>, cid: nat)
    requires Valid(n)
    ensures NamedLink(n, name, cid).guest % 256 == 2 + Offset(cid) % 253
  {
    HostAddress(n, name, 2 + Offset(cid) % 253);
  }

  /** The first guest has .2, every next one the next address, and .2 follows .254. */
  lemma NamedGuestsInOrder(n: Supernet, name: seq<Byte>, cid: nat)
    requires Valid(n)
    ensures cid <= 3 ==> NamedLink(n, name, cid).guest == NamedLink(n, name, cid).gateway + 1
    ensures cid >= 3 ==>
              var link, next := NamedLink(n, name, cid), NamedLink(n, name, cid + 1);
              && next.gateway == link.gateway
              && next.guest == if link.guest % 256 == 254 then link.guest - 252 else link.guest + 1
  {
    if cid >= 3 {
      NextModulo(cid - 3, 253);
      LastHost(n, name, cid);
    }
  }

  /** The first link is 172.20.0.2 behind 172.20.0.1, every next one the next /30, and the first follows
      the last, 172.20.255.254. */
  lemma PointToPointInOrder(cid: nat)
    ensures cid <= 3 ==> PointToPoint(cid).guest == Address(172, 20, 0, 2)
    ensures PointToPoint(cid).gateway == PointToPoint(cid).guest - 1
    ensures cid >= 3 ==>
              var guest := PointToPoint(cid).guest;
              PointToPoint(cid + 1).guest == if guest == Address(172, 20, 255, 254) then Address(172, 20, 0, 2)
                                             else guest + 4
  {
    PairOf(cid);
    PairIndex(Offset(cid));
    PointToPointIsPair(cid);
    if cid >= 3 {
      PairOf(cid + 1);
      PairIndex(Offset(cid + 1));
      PointToPointIsPair(cid + 1);
      NextModulo(cid - 3, 16384);
    }
  }

  // ── Names, subnets and bridges ──────────────────────────────────────

  /** The subnet index is the low bits of the hash that the prefix leaves. */
  lemma SubnetIndexIs(n: Supernet, name: seq<Byte>)
    requires Valid(n)
    ensures SubnetIndex(n, name) == Hash(name) % Pow2(24 - n.prefix)
  {
    WrapSameLow(Hash(name), 16, 24 - n.prefix);
    SameLowMod(Hash(name) % Pow2(16), Hash(name), 24 - n.prefix);
  }

  /** Network names one byte apart share a subnet exactly when those bytes agree in the subnet bits. */
  lemma SubnetsApart(n: Supernet, before: seq<Byte>, x: Byte, y: Byte, after: seq<Byte>)
    requires Valid(n)
    ensures SubnetIndex(n, before + [x] + after) == SubnetIndex(n, before + [y] + after)
       <==> x % Pow2(24 - n.prefix) == y % Pow2(24 - n.prefix)
  {
    SubnetIndexIs(n, before + [x] + after);
    SubnetIndexIs(n, before + [y] + after);
    OneByteApart(before, x, y, after, 24 - n.prefix);
  }

  lemma BridgesSame(a: seq<Byte>, b: seq<Byte>)
    ensures BridgeName(a) == BridgeName(b) <==> Hash(a) % Pow2(32) == Hash(b) % Pow2(32)
  {
    var g, h := Hash(a) % Pow2(32), Hash(b) % Pow2(32);
    Pow2Values();
    WordFits(g);
    WordFits(h);
    HexRoundTrip(g, 8);
    HexRoundTrip(h, 8);
    assert BridgeName(a)[5..] == Hex(g, 8) && BridgeName(b)[5..] == Hex(h, 8);
  }

  /** Networks on one bridge are in one subnet, in every supernet. */
  lemma BridgeImpliesSubnet(n: Supernet, a: seq<Byte>, b: seq<Byte>)
    requires Valid(n) && BridgeName(a) == BridgeName(b)
    ensures SubnetIndex(n, a) == SubnetIndex(n, b)
  {
    BridgesSame(a, b);
    var k := 24 - n.prefix;
    SubnetIndexIs(n, a);
    SubnetIndexIs(n, b);
    WrapSameLow(Hash(a), 32, k);
    WrapSameLow(Hash(b), 32, k);
    SameLowMod(Hash(a) % Pow2(32), Hash(a), k);
    SameLowMod(Hash(b) % Pow2(32), Hash(b), k);
  }

  /** Network names one byte apart never share a bridge. */
  lemma BridgesApart(before: seq<Byte>, x: Byte, y: Byte, after: seq<Byte>)
    ensures BridgeName(before + [x] + after) == BridgeName(before + [y] + after) <==> x == y
  {
    BridgesSame(before + [x] + after, before + [y] + after);
    OneByteApart(before, x, y, after, 32);
    BytesApart(x, y, 32);
  }

  lemma BytesApart(x: Byte, y: Byte, k: nat)
    requires k >= 8
    ensures x % Pow2(k) == y % Pow2(k) <==> x == y
  {
    assert Pow2(k) >= 256 by {
      Pow2Values();
      Pow2Sum(8, k - 8);
      assert Pow2(k - 8) >= 1;
    }
    ModIs(x, Pow2(k), 0, x);
    ModIs(y, Pow2(k), 0, y);
  }
}
