/** The two public-address filters as ranges of addresses. */
module AddressRanges {
  import opened Networks

  lemma BlockIs(n: nat, net: nat, width: nat, bits: nat, size: nat)
    requires bits <= width && Pow2(width - bits) == size && net % size == 0
    ensures InBlock(n, net, width, bits) <==> net <= n < net + size
  {
    FloorFacts(net, size);
    SameFloor(n, net, size);
  }

  // -------------------------------------------------------------------------
  // The download filter
  // -------------------------------------------------------------------------

  /** The IPv4 addresses that no download may reach. */
  predicate Reserved4(n: nat) {
    || n <= 0x00ff_ffff                        // 0.0.0.0/8
    || 0x0a00_0000 <= n <= 0x0aff_ffff         // 10.0.0.0/8
    || 0x6440_0000 <= n <= 0x647f_ffff         // 100.64.0.0/10
    || 0x7f00_0000 <= n <= 0x7fff_ffff         // 127.0.0.0/8
    || 0xa9fe_0000 <= n <= 0xa9fe_ffff         // 169.254.0.0/16
    || n == 0xa83f_8110                        // 168.63.129.16
    || 0xac10_0000 <= n <= 0xac1f_ffff         // 172.16.0.0/12
    || 0xc000_0000 <= n <= 0xc000_ffff         // 192.0.0.0/16
    || 0xc0a8_0000 <= n <= 0xc0a8_ffff         // 192.168.0.0/16
    || 0xc612_0000 <= n <= 0xc613_ffff         // 198.18.0.0/15
    || 0xc633_6400 <= n <= 0xc633_64ff         // 198.51.100.0/24
    || 0xcb00_7100 <= n <= 0xcb00_71ff         // 203.0.113.0/24
    || n >= 0xe000_0000                        // 224.0.0.0/3
  }

  lemma MorePowers()
    ensures Pow2(0) == 1 && Pow2(6) == 0x40 && Pow2(8) == 0x100 && Pow2(9) == 0x200
    ensures Pow2(16) == 0x1_0000 && Pow2(17) == 0x2_0000
    ensures Pow2(20) == 0x10_0000 && Pow2(22) == 0x40_0000 && Pow2(24) == 0x100_0000 && Pow2(29) == 0x2000_0000
  {
    SmallPowers();
  }

  /** The block with index `i` of the list. */
  predicate Avoids4(n: nat, i: nat)
    requires i < |SpecialBlocks(V4)|
  {
    var (net, bits) := SpecialBlocks(V4)[i];
    bits <= 32 && !InBlock(n, net, 32, bits)
  }

  lemma AvoidedIs(n: nat, i: nat, net: nat, bits: nat, size: nat)
    requires i < |SpecialBlocks(V4)| && SpecialBlocks(V4)[i] == (net, bits)
    requires bits <= 32 && Pow2(32 - bits) == size && net % size == 0
    ensures Avoids4(n, i) <==> !(net <= n < net + size)
  {
    hide Pow2, InBlock, SpecialBlocks;
    BlockIs(n, net, 32, bits, size);
  }

  lemma FirstBlocks(n: nat)
    ensures Avoids4(n, 0) <==> !(n <= 0x00ff_ffff)
    ensures Avoids4(n, 1) <==> !(0x0a00_0000 <= n <= 0x0aff_ffff)
    ensures Avoids4(n, 2) <==> !(0x6440_0000 <= n <= 0x647f_ffff)
    ensures Avoids4(n, 3) <==> !(0x7f00_0000 <= n <= 0x7fff_ffff)
    ensures Avoids4(n, 4) <==> !(0xa9fe_0000 <= n <= 0xa9fe_ffff)
    ensures Avoids4(n, 5) <==> n != 0xa83f_8110
  {
    hide Avoids4, Pow2;
    MorePowers();
    AvoidedIs(n, 0, 0, 8, 0x100_0000);
    AvoidedIs(n, 1, 0x0a00_0000, 8, 0x100_0000);
    AvoidedIs(n, 2, 0x6440_0000, 10, 0x40_0000);
    AvoidedIs(n, 3, 0x7f00_0000, 8, 0x100_0000);
    AvoidedIs(n, 4, 0xa9fe_0000, 16, 0x1_0000);
    AvoidedIs(n, 5, 0xa83f_8110, 32, 1);
  }

  lemma MiddleBlocks(n: nat)
    ensures Avoids4(n, 6) <==> !(0xac10_0000 <= n <= 0xac1f_ffff)
    ensures Avoids4(n, 7) <==> !(0xc000_0000 <= n <= 0xc000_ffff)
    ensures Avoids4(n, 8) <==> !(0xc0a8_0000 <= n <= 0xc0a8_ffff)
    ensures Avoids4(n, 9) <==> !(0xc612_0000 <= n <= 0xc613_ffff)
  {
    hide Avoids4, Pow2;
    MorePowers();
    AvoidedIs(n, 6, 0xac10_0000, 12, 0x10_0000);
    AvoidedIs(n, 7, 0xc000_0000, 16, 0x1_0000);
    AvoidedIs(n, 8, 0xc0a8_0000, 16, 0x1_0000);
    AvoidedIs(n, 9, 0xc612_0000, 15, 0x2_0000);
  }

  lemma LastBlocks(n: nat)
    requires n < 0x1_0000_0000
    ensures Avoids4(n, 10) <==> !(0xc633_6400 <= n <= 0xc633_64ff)
    ensures Avoids4(n, 11) <==> !(0xcb00_7100 <= n <= 0xcb00_71ff)
    ensures Avoids4(n, 12) <==> !(n >= 0xe000_0000)
  {
    hide Avoids4, Pow2;
    MorePowers();
    AvoidedIs(n, 10, 0xc633_6400, 24, 0x100);
    AvoidedIs(n, 11, 0xcb00_7100, 24, 0x100);
    AvoidedIs(n, 12, 0xe000_0000, 3, 0x2000_0000);
  }

  lemma AllBlocks4(ip: Ip)
    requires ip.family == V4
    ensures PublicIp(ip) <==> forall i :: 0 <= i < 13 ==> Avoids4(ip.n, i)
  {
    hide InBlock, Pow2;
    assert |SpecialBlocks(V4)| == 13;
    if forall i :: 0 <= i < 13 ==> Avoids4(ip.n, i) {
      forall i | 0 <= i < 13
        ensures var (net, bits) := SpecialBlocks(V4)[i]; bits <= 32 && !InBlock(ip.n, net, 32, bits)
      {
        assert Avoids4(ip.n, i);
      }
    }
  }

  /** The download filter admits exactly the IPv4 addresses outside these ranges. */
  lemma DownloadFilter4(ip: Ip)
    requires ip.family == V4 && ip.n < 0x1_0000_0000
    ensures PublicIp(ip) <==> !Reserved4(ip.n)
  {
    hide Avoids4, PublicIp, SpecialBlocks;
    FirstBlocks(ip.n);
    MiddleBlocks(ip.n);
    LastBlocks(ip.n);
    AllBlocks4(ip);
    assert forall i :: i in [0, 1, 2, 3, 4, 5, 6, 7, 8, 9, 10, 11, 12] <==> 0 <= i < 13;
  }

  const TWO_TO_THE_96 := 0x1_0000_0000_0000_0000_0000_0000

  /** The first two groups of an IPv6 address. */
  function FirstGroups(n: nat): nat {
    n / TWO_TO_THE_96
  }

  /** Global unicast addresses outside the special blocks, by their first two groups. */
  predicate Unicast6(groups: nat) {
    && 0x2000_0000 <= groups <= 0x3fff_ffff        // 2000::/3
    && !(0x2001_0000 <= groups <= 0x2001_01ff)     // 2001::/23
    && groups != 0x2001_0db8                       // 2001:db8::/32
    && !(0x2002_0000 <= groups <= 0x2002_ffff)     // 2002::/16
    && !(0x3ff0_0000 <= groups <= 0x3fff_ffff)     // 3ff0::/12
  }

  lemma Distribute(a: nat, k: nat, r: nat, u: nat)
    ensures (a * k + r) * u == a * (k * u) + r * u
  {
  }

  lemma DivideTwice(n: nat, u: nat, k: nat)
    requires u >= 1 && k >= 1
    ensures n / (k * u) == (n / u) / k
  {
    var q, s := n / u, n % u;
    var a, r := q / k, q % k;
    DivideStep(n, u);
    DivideStep(q, k);
    Distribute(a, k, r, u);
    RestIsSmall(r, k, u, s);
    ModOf(a, k * u, r * u + s);
  }

  lemma DivideStep(n: nat, m: nat)
    requires m >= 1
    ensures n == (n / m) * m + n % m
  {
  }

  lemma RestIsSmall(r: nat, k: nat, u: nat, s: nat)
    requires r < k && s < u
    ensures r * u + s < k * u
  {
    AtLeastOnce(k - r, u);
    assert (k - r) * u == k * u - r * u;
  }

  /** A block given by its first two groups. */
  lemma GroupBlock(n: nat, groups: nat, bits: nat, k: nat)
    requires bits <= 32 && Pow2(32 - bits) == k && groups % k == 0 && Pow2(96) == TWO_TO_THE_96
    ensures InBlock(n, groups * TWO_TO_THE_96, 128, bits) <==> groups <= FirstGroups(n) < groups + k
  {
    PowAdd(32 - bits, 96);
    DivideTwice(n, TWO_TO_THE_96, k);
    DivideTwice(groups * TWO_TO_THE_96, TWO_TO_THE_96, k);
    ModOf(groups, TWO_TO_THE_96, 0);
    hide Pow2;
    FloorFacts(groups, k);
    SameFloor(FirstGroups(n), groups, k);
  }

  lemma LargePowers()
    ensures Pow2(96) == TWO_TO_THE_96 && Pow2(112) == 0x1_0000 * TWO_TO_THE_96
    ensures Pow2(125) == 0x2000_0000 * TWO_TO_THE_96
  {
    hide Pow2;
    MorePowers();
    SmallPowers();
    PowAdd(32, 32);
    PowAdd(64, 32);
    PowAdd(16, 96);
    PowAdd(29, 96);
  }

  predicate Avoids6(n: nat, i: nat)
    requires i < |SpecialBlocks(V6)|
  {
    var (net, bits) := SpecialBlocks(V6)[i];
    bits <= 128 && !InBlock(n, net, 128, bits)
  }

  lemma AvoidedGroups(n: nat, i: nat, groups: nat, bits: nat, k: nat)
    requires i < |SpecialBlocks(V6)| && SpecialBlocks(V6)[i] == (groups * TWO_TO_THE_96, bits)
    requires bits <= 32 && Pow2(32 - bits) == k && groups % k == 0
    ensures Avoids6(n, i) <==> !(groups <= FirstGroups(n) < groups + k)
  {
    hide Pow2, InBlock, SpecialBlocks, FirstGroups;
    LargePowers();
    GroupBlock(n, groups, bits, k);
  }

  lemma Blocks6(n: nat)
    ensures Avoids6(n, 0) <==> !(0x2001_0000 <= FirstGroups(n) <= 0x2001_01ff)
    ensures Avoids6(n, 1) <==> FirstGroups(n) != 0x2001_0db8
    ensures Avoids6(n, 2) <==> !(0x2002_0000 <= FirstGroups(n) <= 0x2002_ffff)
    ensures Avoids6(n, 3) <==> !(0x3ff0_0000 <= FirstGroups(n) <= 0x3fff_ffff)
  {
    hide Pow2, InBlock, FirstGroups, Avoids6;
    LargePowers();
    MorePowers();
    AvoidedGroups(n, 0, 0x2001_0000, 23, 0x200);
    AvoidedGroups(n, 1, 0x2001_0db8, 32, 1);
    AvoidedGroups(n, 2, 0x2002_0000, 16, 0x1_0000);
    AvoidedGroups(n, 3, 0x3ff0_0000, 12, 0x10_0000);
  }

  lemma AllBlocks6(ip: Ip)
    requires ip.family == V6
    ensures PublicIp(ip) <==> ip.n / Pow2(125) == 1 && forall i :: 0 <= i < 4 ==> Avoids6(ip.n, i)
  {
    hide InBlock, Pow2;
    assert |SpecialBlocks(V6)| == 4;
    if forall i :: 0 <= i < 4 ==> Avoids6(ip.n, i) {
      forall i | 0 <= i < 4
        ensures var (net, bits) := SpecialBlocks(V6)[i]; bits <= 128 && !InBlock(ip.n, net, 128, bits)
      {
        assert Avoids6(ip.n, i);
      }
    }
  }

  /** The download filter admits exactly these IPv6 addresses. */
  lemma DownloadFilter6(ip: Ip)
    requires ip.family == V6
    ensures PublicIp(ip) <==> Unicast6(FirstGroups(ip.n))
  {
    hide Avoids6, PublicIp, Pow2, SpecialBlocks, FirstGroups;
    AllBlocks6(ip);
    Blocks6(ip.n);
    LargePowers();
    FirstThreeBits(ip.n);
    assert forall i :: i in [0, 1, 2, 3] <==> 0 <= i < 4;
  }

  lemma FirstThreeBits(n: nat)
    ensures n / (0x2000_0000 * TWO_TO_THE_96) == 1 <==> 0x2000_0000 <= FirstGroups(n) <= 0x3fff_ffff
  {
    DivideTwice(n, TWO_TO_THE_96, 0x2000_0000);
  }

  // -------------------------------------------------------------------------
  // The GeoIP filter
  // -------------------------------------------------------------------------

  /** The IPv4 addresses that have no place on the map. */
  predicate Local4(n: nat) {
    || n == 0
    || 0x0a00_0000 <= n <= 0x0aff_ffff         // 10.0.0.0/8
    || 0x7f00_0000 <= n <= 0x7fff_ffff         // 127.0.0.0/8
    || 0xa9fe_0000 <= n <= 0xa9fe_ffff         // 169.254.0.0/16
    || 0xac10_0000 <= n <= 0xac1f_ffff         // 172.16.0.0/12
    || 0xc000_0200 <= n <= 0xc000_02ff         // 192.0.2.0/24
    || 0xc0a8_0000 <= n <= 0xc0a8_ffff         // 192.168.0.0/16
    || 0xc633_6400 <= n <= 0xc633_64ff         // 198.51.100.0/24
    || 0xcb00_7100 <= n <= 0xcb00_71ff         // 203.0.113.0/24
    || 0xe000_0000 <= n <= 0xefff_ffff         // 224.0.0.0/4
    || n == 0xffff_ffff
  }

  lemma OctetsOf(n: nat)
    requires n < 0x1_0000_0000
    ensures n == 0x100_0000 * Octet(n, 0) + 0x1_0000 * Octet(n, 1) + 0x100 * Octet(n, 2) + Octet(n, 3)
    ensures Octet(n, 0) < 0x100 && Octet(n, 1) < 0x100 && Octet(n, 2) < 0x100 && Octet(n, 3) < 0x100
  {
    LeadingOctets(n);
    OctetBounds(n);
    assert n == 0x100 * (n / 0x100) + Octet(n, 3);
  }

  lemma OctetBounds(n: nat)
    ensures Octet(n, 0) < 0x100 && Octet(n, 1) < 0x100 && Octet(n, 2) < 0x100 && Octet(n, 3) < 0x100
  {
  }

  /** The GeoIP filter admits exactly the IPv4 addresses outside these ranges. */
  lemma GeoFilter4(ip: Ip)
    requires ip.family == V4 && ip.n < 0x1_0000_0000
    ensures IsPublicIp(ip) <==> !Local4(ip.n)
  {
    OctetsOf(ip.n);
    hide Octet;
  }

  /** The IPv6 addresses that have none: unspecified, loopback, and by their first group. */
  predicate Local6(n: nat) {
    var first := n / 0x1_0000_0000_0000_0000_0000_0000_0000;
    || n == 0 || n == 1
    || 0xfc00 <= first <= 0xfdff     // fc00::/7
    || 0xfe80 <= first <= 0xfebf     // fe80::/10
    || 0xff00 <= first               // ff00::/8
  }

  lemma FloorIs(x: nat, v: nat, m: nat)
    requires m >= 1 && v % m == 0
    ensures x - x % m == v <==> v <= x < v + m
  {
    FloorFacts(v, m);
    SameFloor(x, v, m);
  }

  /** Bits of a group and its range. */
  lemma MaskedGroup(first: nat)
    requires first < 0x1_0000
    ensures And(first, 0xff00) == 0xff00 <==> 0xff00 <= first
    ensures And(first, 0xfe00) == 0xfc00 <==> 0xfc00 <= first <= 0xfdff
    ensures And(first, 0xffc0) == 0xfe80 <==> 0xfe80 <= first <= 0xfebf
  {
    hide And, Pow2;
    MorePowers();
    AndHighBits(first, 16, 8);
    AndHighBits(first, 16, 9);
    AndHighBits(first, 16, 6);
    FloorIs(first, 0xff00, 0x100);
    FloorIs(first, 0xfc00, 0x200);
    FloorIs(first, 0xfe80, 0x40);
  }

  /** The GeoIP filter admits exactly the other IPv6 addresses. */
  lemma GeoFilter6(ip: Ip)
    requires ip.family == V6 && ip.Valid()
    ensures IsPublicIp(ip) <==> !Local6(ip.n)
  {
    hide And, Pow2;
    LargePowers();
    MorePowers();
    PowAdd(16, 112);
    FirstIsGroup(ip.n);
    MaskedGroup(FirstSegment(ip.n));
  }

  lemma FirstIsGroup(n: nat)
    requires n < 0x1_0000 * 0x1_0000_0000_0000_0000_0000_0000_0000
    ensures FirstSegment(n) < 0x1_0000
  {
  }
}
