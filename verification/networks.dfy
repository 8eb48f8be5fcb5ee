/**
  Address blocks (section 3.1 of RFC 4632): two independent membership tests,
  the access policy built on them, and the two public-address filters.
  Addresses are numbers; the bit operations are defined bit by bit.
*/
module Networks {
  import opened Wrappers

  function Pow2(k: nat): (p: nat)
    ensures p >= 1
  {
    if k == 0 then 1 else 2 * Pow2(k - 1)
  }

  /** Bitwise and. */
  function And(a: nat, b: nat): nat {
    if a == 0 || b == 0 then 0
    else 2 * And(a / 2, b / 2) + (if a % 2 == 1 && b % 2 == 1 then 1 else 0)
  }

  /** `x << k` on words of `width` bits. */
  function ShiftLeft(width: nat, x: nat, k: nat): nat {
    (x * Pow2(k)) % Pow2(width)
  }

  datatype Family = V4 | V6 {
    function Width(): nat {
      if V4? then 32 else 128
    }
  }

  datatype Ip = Ip(family: Family, n: nat) {
    predicate Valid() {
      n < Pow2(family.Width())
    }
  }

  function Mask(width: nat, prefix: nat): nat
    requires prefix <= width
  {
    if prefix == 0 then 0 else ShiftLeft(width, Pow2(width) - 1, width - prefix)
  }

  function MaskIp(ip: Ip, prefix: nat): Ip
    requires prefix <= ip.family.Width()
  {
    ip.(n := And(ip.n, Mask(ip.family.Width(), prefix)))
  }

  datatype IpNetwork = IpNetwork(network: Ip, prefix: nat) {
    predicate Contains(ip: Ip)
      requires prefix <= network.family.Width()
    {
      network.family == ip.family && MaskIp(ip, prefix) == network
    }
  }

  /** What `IpNetwork::parse` makes of a parsed address and prefix; `None` when the prefix is too long. */
  function Parse(ip: Ip, prefix: nat): (r: Option<IpNetwork>)
    ensures r.Some? <==> prefix <= ip.family.Width()
    ensures r.Some? ==> r.value.prefix == prefix && r.value.network.family == ip.family
  {
    if prefix > ip.family.Width() then None else Some(IpNetwork(MaskIp(ip, prefix), prefix))
  }

  /** The other implementation keeps the address as written and masks both sides. */
  datatype TrustedProxy = TrustedProxy(network: Ip, prefix: nat) {
    predicate Contains(ip: Ip)
      requires prefix <= network.family.Width()
    {
      network.family == ip.family &&
      var mask := Mask(network.family.Width(), prefix);
      And(ip.n, mask) == And(network.n, mask)
    }
  }

  // -------------------------------------------------------------------------
  // Bits and numbers
  // -------------------------------------------------------------------------

  lemma {:induction false} PowAdd(a: nat, b: nat)
    ensures Pow2(a + b) == Pow2(a) * Pow2(b)
  {
    if a > 0 {
      PowAdd(a - 1, b);
      assert Pow2(a) * Pow2(b) == 2 * (Pow2(a - 1) * Pow2(b));
    }
  }

  lemma {:induction false} PowGrows(a: nat, b: nat)
    requires a < b
    ensures 2 * Pow2(a) <= Pow2(b)
    decreases b
  {
    if a + 1 < b {
      PowGrows(a, b - 1);
    }
  }

  lemma AtLeastOnce(k: int, m: nat)
    requires k >= 1
    ensures k * m >= m
  {
  }

  /** Quotient and remainder are unique. */
  lemma ModOf(q: nat, m: nat, r: nat)
    requires r < m
    ensures (q * m + r) % m == r && (q * m + r) / m == q
  {
    var x := q * m + r;
    var q', r' := x / m, x % m;
    assert (q - q') * m == r' - r && (q' - q) * m == r - r';
    if q > q' {
      AtLeastOnce(q - q', m);
    } else if q < q' {
      AtLeastOnce(q' - q, m);
    }
  }

  /** The largest multiple of `m` that is at most `a`. */
  function Floor(a: nat, m: nat): nat
    requires m >= 1
  {
    a - a % m
  }

  lemma FloorFacts(a: nat, m: nat)
    requires m >= 1
    ensures Floor(a, m) == (a / m) * m && Floor(a, m) % m == 0
    ensures Floor(a, m) <= a < Floor(a, m) + m
  {
    ModOf(a / m, m, 0);
  }

  /** Two numbers have the same floor exactly when one lies in the other's interval, and when their quotients agree. */
  lemma SameFloor(a: nat, b: nat, m: nat)
    requires m >= 1
    ensures Floor(a, m) == Floor(b, m) <==> Floor(b, m) <= a < Floor(b, m) + m
    ensures Floor(a, m) == Floor(b, m) <==> a / m == b / m
  {
    FloorFacts(a, m);
    FloorFacts(b, m);
    var base := Floor(b, m);
    if base <= a < base + m {
      ModOf(b / m, m, a - base);
    }
    if a / m < b / m {
      AtLeastOnce(b / m - a / m, m);
    } else if b / m < a / m {
      AtLeastOnce(a / m - b / m, m);
    }
  }

  /** A mask of `prefix` ones in front of zeros. */
  lemma MaskValue(width: nat, prefix: nat)
    requires prefix <= width
    ensures Mask(width, prefix) == Pow2(width) - Pow2(width - prefix)
  {
    if prefix > 0 {
      var w, k := Pow2(width), Pow2(width - prefix);
      PowGrows(width - prefix, width);
      assert (w - 1) * k == (k - 1) * w + (w - k);
      ModOf(k - 1, w, w - k);
    }
  }

  lemma {:induction false} AndOnes(x: nat, width: nat)
    requires x < Pow2(width)
    ensures And(x, Pow2(width) - 1) == x
    decreases width
  {
    if x > 0 {
      assert (Pow2(width) - 1) / 2 == Pow2(width - 1) - 1;
      AndOnes(x / 2, width - 1);
    }
  }

  lemma AndEven(x: nat, m: nat)
    ensures And(x, 2 * m) == 2 * And(x / 2, m)
  {
    if x == 0 || m == 0 {
      assert And(x, 2 * m) == 0 && And(x / 2, m) == 0;
    } else {
      assert 2 * m / 2 == m && 2 * m % 2 == 0;
    }
  }

  /** Masking off the low `k` bits subtracts the remainder modulo `2^k`. */
  lemma {:induction false} AndHighBits(x: nat, width: nat, k: nat)
    requires k <= width && Pow2(k) <= Pow2(width) && x < Pow2(width)
    ensures And(x, Pow2(width) - Pow2(k)) == x - x % Pow2(k)
    decreases k
  {
    if k == 0 {
      AndOnes(x, width);
    } else {
      var w, p := Pow2(width - 1), Pow2(k - 1);
      AndHighBits(x / 2, width - 1, k - 1);
      AndEven(x, w - p);
      RemainderBits(x, p);
    }
  }

  lemma RemainderBits(x: nat, p: nat)
    requires p >= 1
    ensures x % (2 * p) == 2 * (x / 2 % p) + x % 2
  {
    var h := x / 2;
    assert h == (h / p) * p + h % p;
    assert x == (h / p) * (2 * p) + (2 * (h % p) + x % 2);
    ModOf(h / p, 2 * p, 2 * (h % p) + x % 2);
  }

  /** The number of addresses in a block. */
  function Size(family: Family, prefix: nat): nat
    requires prefix <= family.Width()
  {
    Pow2(family.Width() - prefix)
  }

  lemma MaskedNat(x: nat, width: nat, prefix: nat)
    requires prefix <= width && x < Pow2(width)
    ensures And(x, Mask(width, prefix)) == Floor(x, Pow2(width - prefix))
  {
    var k := width - prefix;
    if k < width {
      PowGrows(k, width);
    }
    MaskValue(width, prefix);
    AndHighBits(x, width, k);
  }

  lemma MaskedNumber(ip: Ip, prefix: nat)
    requires ip.Valid() && prefix <= ip.family.Width()
    ensures MaskIp(ip, prefix).n == Floor(ip.n, Size(ip.family, prefix))
  {
    MaskedNat(ip.n, ip.family.Width(), prefix);
  }

  // -------------------------------------------------------------------------
  // Blocks
  // -------------------------------------------------------------------------

  /** Membership is membership in the aligned interval of size 2^(width - prefix) around the address. */
  lemma ContainsIsInterval(address: Ip, prefix: nat, ip: Ip)
    requires address.Valid() && ip.Valid() && prefix <= address.family.Width()
    ensures var block := Parse(address, prefix).value;
            && block.network.n % Size(address.family, prefix) == 0
            && block.network.n <= address.n < block.network.n + Size(address.family, prefix)
            && (block.Contains(ip) <==>
                  && ip.family == address.family
                  && block.network.n <= ip.n < block.network.n + Size(address.family, prefix))
  {
    var m := Size(address.family, prefix);
    MaskedNumber(address, prefix);
    FloorFacts(address.n, m);
    if ip.family == address.family {
      MaskedNumber(ip, prefix);
      SameFloor(ip.n, address.n, m);
    }
  }

  /** Both implementations contain the same addresses: those with the same leading bits. */
  lemma ImplementationsAgree(address: Ip, prefix: nat, ip: Ip)
    requires address.Valid() && ip.Valid() && prefix <= address.family.Width()
    ensures TrustedProxy(address, prefix).Contains(ip) <==> Parse(address, prefix).value.Contains(ip)
    ensures TrustedProxy(address, prefix).Contains(ip) <==>
              && ip.family == address.family
              && ip.n / Size(address.family, prefix) == address.n / Size(address.family, prefix)
  {
    if ip.family == address.family {
      MaskedNumber(address, prefix);
      MaskedNumber(ip, prefix);
      SameFloor(ip.n, address.n, Size(address.family, prefix));
    }
  }

  /** Parsed blocks are equal exactly when they contain the same addresses. */
  lemma EqualBlocksHaveEqualAddresses(a: Ip, p: nat, b: Ip, q: nat)
    requires a.Valid() && b.Valid() && p <= a.family.Width() && q <= b.family.Width()
    ensures Parse(a, p).value == Parse(b, q).value <==>
            forall ip: Ip :: ip.Valid() ==> (Parse(a, p).value.Contains(ip) <==> Parse(b, q).value.Contains(ip))
  {
    var x, y := Parse(a, p).value, Parse(b, q).value;
    if forall ip: Ip :: ip.Valid() ==> (x.Contains(ip) <==> y.Contains(ip)) {
      BlockWithin(a, p, b, q);
      BlockWithin(b, q, a, p);
    }
  }

  /** Every address of `a`'s block is one of `b`'s. */
  ghost predicate Within(a: Ip, p: nat, b: Ip, q: nat)
    requires p <= a.family.Width() && q <= b.family.Width()
  {
    forall ip: Ip :: ip.Valid() && Parse(a, p).value.Contains(ip) ==> Parse(b, q).value.Contains(ip)
  }

  lemma WithinAt(a: Ip, p: nat, b: Ip, q: nat, n: nat)
    requires a.Valid() && b.Valid() && p <= a.family.Width() && q <= b.family.Width() && Within(a, p, b, q)
    requires n < Pow2(a.family.Width())
    requires Parse(a, p).value.network.n <= n < Parse(a, p).value.network.n + Size(a.family, p)
    ensures a.family == b.family
    ensures Parse(b, q).value.network.n <= n < Parse(b, q).value.network.n + Size(b.family, q)
  {
    var ip := Ip(a.family, n);
    ContainsIsInterval(a, p, ip);
    ContainsIsInterval(b, q, ip);
  }

  lemma PowPositive(k: nat)
    ensures Pow2(k) >= 1
  {
  }

  /** A block whose addresses all lie in another starts no earlier and is no larger. */
  lemma BlockWithin(a: Ip, p: nat, b: Ip, q: nat)
    requires a.Valid() && b.Valid() && p <= a.family.Width() && q <= b.family.Width() && Within(a, p, b, q)
    ensures a.family == b.family && p >= q
    ensures Parse(b, q).value.network.n <= Parse(a, p).value.network.n
  {
    hide MaskIp, Within, Pow2;
    PowPositive(a.family.Width() - p);
    var first, m := Parse(a, p).value.network.n, Size(a.family, p);
    BlockEnds(a, p);
    WithinAt(a, p, b, q, first);
    WithinAt(a, p, b, q, first + m - 1);
    LongerPrefix(a.family.Width(), p, q);
  }

  lemma LongerPrefix(width: nat, p: nat, q: nat)
    requires p <= width && q <= width && Pow2(width - p) <= Pow2(width - q)
    ensures p >= q
  {
    if p < q {
      PowGrows(width - q, width - p);
    }
  }

  /** The last address of a block is a valid address. */
  lemma BlockEnds(a: Ip, p: nat)
    requires a.Valid() && p <= a.family.Width()
    ensures Parse(a, p).value.network.n + Size(a.family, p) <= Pow2(a.family.Width())
  {
    var k := a.family.Width() - p;
    MaskedNumber(a, p);
    PowAdd(p, k);
    FloorEnds(a.n, Pow2(k), Pow2(p));
  }

  lemma FloorEnds(a: nat, m: nat, q: nat)
    requires m >= 1 && a < q * m
    ensures Floor(a, m) + m <= q * m
  {
    FloorFacts(a, m);
    var left := q - a / m;
    assert left * m == q * m - (a / m) * m;
    assert left >= 1;
    AtLeastOnce(left, m);
  }

  // -------------------------------------------------------------------------
  // The access policy
  // -------------------------------------------------------------------------

  datatype Decision = Allow | DenyRule | AllowlistRequired

  /** A block as `parse` produces it. */
  type Block = b: IpNetwork | b.prefix <= b.network.family.Width() witness IpNetwork(Ip(V4, 0), 0)

  /** A rule with its network text parsed; `None` when that failed. */
  datatype Rule = Rule(action: string, network: Option<Block>, enabled: bool)

  datatype Policy = Policy(allow: seq<Block>, deny: seq<Block>)

  predicate Usable(rule: Rule) {
    rule.network.Some? && rule.action in {"allow", "deny"}
  }

  predicate ContainedIn(ip: Ip, networks: seq<Block>) {
    exists i :: 0 <= i < |networks| && networks[i].Contains(ip)
  }

  function Decide(policy: Policy, ip: Ip): Decision {
    if ContainedIn(ip, policy.deny) then DenyRule
    else if policy.allow != [] && !ContainedIn(ip, policy.allow) then AllowlistRequired
    else Allow
  }

  ghost predicate Compiled(rules: seq<Rule>, action: string, networks: seq<Block>) {
    forall n :: n in networks <==> exists i :: 0 <= i < |rules| && rules[i] == Rule(action, Some(n), true)
  }

  method Compile(rules: seq<Rule>) returns (policy: Option<Policy>)
    ensures policy.Some? <==> forall i :: 0 <= i < |rules| && rules[i].enabled ==> Usable(rules[i])
    ensures policy.Some? ==> Compiled(rules, "allow", policy.value.allow) && Compiled(rules, "deny", policy.value.deny)
  {
    var allow: seq<Block> := [];
    var deny: seq<Block> := [];
    for i := 0 to |rules|
      invariant forall k :: 0 <= k < i && rules[k].enabled ==> Usable(rules[k])
      invariant Compiled(rules[..i], "allow", allow) && Compiled(rules[..i], "deny", deny)
    {
      assert rules[..i + 1] == rules[..i] + [rules[i]];
      var rule := rules[i];
      if !rule.enabled {
        ExtendCompiled(rules[..i], rule, "allow", allow);
        ExtendCompiled(rules[..i], rule, "deny", deny);
        continue;
      }
      if rule.network.None? {
        return None;
      }
      if rule.action != "allow" && rule.action != "deny" {
        return None;
      }
      ExtendCompiled(rules[..i], rule, "allow", allow);
      ExtendCompiled(rules[..i], rule, "deny", deny);
      if rule.action == "allow" {
        allow := allow + [rule.network.value];
      } else {
        deny := deny + [rule.network.value];
      }
    }
    assert rules[..|rules|] == rules;
    return Some(Policy(allow, deny));
  }

  lemma ExtendCompiled(rules: seq<Rule>, rule: Rule, action: string, networks: seq<Block>)
    requires Compiled(rules, action, networks)
    ensures !rule.enabled || rule.network.None? || rule.action != action ==> Compiled(rules + [rule], action, networks)
    ensures rule.enabled && rule.network.Some? && rule.action == action ==>
              Compiled(rules + [rule], action, networks + [rule.network.value])
  {
    var more := rules + [rule];
    forall n ensures (exists i :: 0 <= i < |more| && more[i] == Rule(action, Some(n), true))
                     <==> n in networks || rule == Rule(action, Some(n), true)
    {
      if n in networks {
        var i :| 0 <= i < |rules| && rules[i] == Rule(action, Some(n), true);
        assert more[i] == rules[i];
      }
      if rule == Rule(action, Some(n), true) {
        assert more[|rules|] == rule;
      }
      if i :| 0 <= i < |more| && more[i] == Rule(action, Some(n), true) {
        if i < |rules| {
          assert rules[i] == more[i];
        }
      }
    }
  }

  /** Some enabled rule with this action contains the address. */
  ghost predicate RuleHits(rules: seq<Rule>, action: string, ip: Ip) {
    exists i :: 0 <= i < |rules| && rules[i].enabled && rules[i].action == action &&
                rules[i].network.Some? && rules[i].network.value.Contains(ip)
  }

  ghost predicate AnyRule(rules: seq<Rule>, action: string) {
    exists i :: 0 <= i < |rules| && rules[i].enabled && rules[i].action == action
  }

  /**
    The decision in terms of the rules alone: a deny rule always wins; otherwise any allow rules make
    an allowlist.
  */
  lemma DecisionFromRules(rules: seq<Rule>, policy: Policy, ip: Ip)
    requires forall i :: 0 <= i < |rules| && rules[i].enabled ==> Usable(rules[i])
    requires Compiled(rules, "allow", policy.allow) && Compiled(rules, "deny", policy.deny)
    ensures Decide(policy, ip) == if RuleHits(rules, "deny", ip) then DenyRule
                                  else if AnyRule(rules, "allow") && !RuleHits(rules, "allow", ip)
                                  then AllowlistRequired
                                  else Allow
  {
    HitsAgree(rules, "deny", policy.deny, ip);
    HitsAgree(rules, "allow", policy.allow, ip);
    if AnyRule(rules, "allow") {
      var i :| 0 <= i < |rules| && rules[i].enabled && rules[i].action == "allow";
      assert rules[i] == Rule("allow", Some(rules[i].network.value), true);
      assert rules[i].network.value in policy.allow;
    }
    assert policy.allow != [] ==> policy.allow[0] in policy.allow;
  }

  lemma HitsAgree(rules: seq<Rule>, action: string, networks: seq<Block>, ip: Ip)
    requires Compiled(rules, action, networks)
    ensures ContainedIn(ip, networks) <==> RuleHits(rules, action, ip)
  {
    if ContainedIn(ip, networks) {
      var k :| 0 <= k < |networks| && networks[k].Contains(ip);
      assert networks[k] in networks;
      var i :| 0 <= i < |rules| && rules[i] == Rule(action, Some(networks[k]), true);
    }
    if RuleHits(rules, action, ip) {
      var i :| 0 <= i < |rules| && rules[i].enabled && rules[i].action == action &&
               rules[i].network.Some? && rules[i].network.value.Contains(ip);
      assert rules[i] == Rule(action, Some(rules[i].network.value), true);
      var k :| 0 <= k < |networks| && networks[k] == rules[i].network.value;
    }
  }

  /** Reordering the rules changes no decision. */
  lemma DecisionIgnoresOrder(a: seq<Rule>, b: seq<Rule>, p: Policy, q: Policy, ip: Ip)
    requires multiset(a) == multiset(b)
    requires Compiled(a, "allow", p.allow) && Compiled(a, "deny", p.deny)
    requires Compiled(b, "allow", q.allow) && Compiled(b, "deny", q.deny)
    ensures Decide(p, ip) == Decide(q, ip)
  {
    SameNetworks(a, b, "allow", p.allow, q.allow);
    SameNetworks(a, b, "deny", p.deny, q.deny);
    SameContained(p.allow, q.allow, ip);
    SameContained(p.deny, q.deny, ip);
    assert p.allow != [] ==> p.allow[0] in q.allow;
    assert q.allow != [] ==> q.allow[0] in p.allow;
  }

  lemma SameNetworks(a: seq<Rule>, b: seq<Rule>, action: string, x: seq<Block>, y: seq<Block>)
    requires multiset(a) == multiset(b) && Compiled(a, action, x) && Compiled(b, action, y)
    ensures forall n :: n in x <==> n in y
  {
    forall n ensures n in x <==> n in y {
      var rule := Rule(action, Some(n), true);
      assert rule in a <==> rule in multiset(a);
      assert rule in b <==> rule in multiset(b);
    }
  }

  lemma SameContained(x: seq<Block>, y: seq<Block>, ip: Ip)
    requires forall n :: n in x <==> n in y
    ensures ContainedIn(ip, x) <==> ContainedIn(ip, y)
  {
    if ContainedIn(ip, x) {
      var i :| 0 <= i < |x| && x[i].Contains(ip);
      assert x[i] in y;
    }
    if ContainedIn(ip, y) {
      var i :| 0 <= i < |y| && y[i].Contains(ip);
      assert y[i] in x;
    }
  }

  // -------------------------------------------------------------------------
  // The two public-address filters
  // -------------------------------------------------------------------------

  function Octet(n: nat, i: nat): nat
    requires i < 4
  {
    (if i == 0 then n / 0x100_0000 else if i == 1 then n / 0x1_0000 else if i == 2 then n / 0x100 else n) % 0x100
  }

  /** The first 16-bit group of an IPv6 address. */
  function FirstSegment(n: nat): nat {
    n / 0x1_0000_0000_0000_0000_0000_0000_0000
  }

  /** The GeoIP filter, with the standard library's tests spelled out. */
  predicate IsPublicIp(ip: Ip) {
    match ip.family
    case V4 =>
      var a, b, c, d := Octet(ip.n, 0), Octet(ip.n, 1), Octet(ip.n, 2), Octet(ip.n, 3);
      var isPrivate := a == 10 || (a == 172 && 16 <= b <= 31) || (a == 192 && b == 168);
      var isDocumentation :=
        (a == 192 && b == 0 && c == 2) || (a == 198 && b == 51 && c == 100) || (a == 203 && b == 0 && c == 113);
      var isBroadcast := a == 255 && b == 255 && c == 255 && d == 255;
      !(isPrivate || a == 127 || (a == 169 && b == 254) || isBroadcast || isDocumentation || ip.n == 0 ||
        224 <= a <= 239)
    case V6 =>
      var first := FirstSegment(ip.n);
      !(ip.n == 1 || ip.n == 0 || And(first, 0xff00) == 0xff00 || And(first, 0xfe00) == 0xfc00 ||
        And(first, 0xffc0) == 0xfe80)
  }

  /** A block of the download filter, compared by its leading bits only. */
  predicate InBlock(n: nat, net: nat, width: nat, bits: nat)
    requires bits <= width
  {
    n / Pow2(width - bits) == net / Pow2(width - bits)
  }

  /** The blocks a download target must avoid. */
  function SpecialBlocks(family: Family): seq<(nat, nat)> {
    match family
    case V4 =>
      [(0, 8), (0x0a00_0000, 8), (0x6440_0000, 10), (0x7f00_0000, 8), (0xa9fe_0000, 16), (0xa83f_8110, 32),
       (0xac10_0000, 12), (0xc000_0000, 16), (0xc0a8_0000, 16), (0xc612_0000, 15), (0xc633_6400, 24),
       (0xcb00_7100, 24), (0xe000_0000, 3)]
    case V6 =>
      [(0x2001 * Pow2(112), 23), (0x2001_0db8 * Pow2(96), 32), (0x2002 * Pow2(112), 16), (0x3ff0 * Pow2(112), 12)]
  }

  /** The download filter. */
  predicate PublicIp(ip: Ip) {
    && (ip.family == V6 ==> ip.n / Pow2(125) == 1)
    && forall i :: 0 <= i < |SpecialBlocks(ip.family)| ==>
         var (net, bits) := SpecialBlocks(ip.family)[i];
         bits <= ip.family.Width() && !InBlock(ip.n, net, ip.family.Width(), bits)
  }

  lemma {:induction false} AndAtMost(a: nat, b: nat)
    ensures And(a, b) <= a
  {
    if a != 0 && b != 0 {
      AndAtMost(a / 2, b / 2);
    }
  }

  lemma SmallPowers()
    ensures Pow2(8) == 0x100 && Pow2(16) == 0x1_0000 && Pow2(20) == 0x10_0000 && Pow2(24) == 0x100_0000
    ensures Pow2(25) == 0x200_0000 && Pow2(29) == 0x2000_0000 && Pow2(32) == 0x1_0000_0000
  {
  }

  /** Every target the download filter admits is public for the GeoIP filter too. */
  lemma DownloadFilterIsStricter(ip: Ip)
    requires ip.Valid() && PublicIp(ip)
    ensures IsPublicIp(ip)
  {
    if ip.family == V4 {
      StricterV4(ip);
    } else {
      StricterV6(ip);
    }
  }

  /** The i-th block excludes every address with its leading bits. */
  lemma Avoids(ip: Ip, i: nat, net: nat, bits: nat, size: nat)
    requires PublicIp(ip) && i < |SpecialBlocks(ip.family)| && SpecialBlocks(ip.family)[i] == (net, bits)
    requires bits <= ip.family.Width() && Pow2(ip.family.Width() - bits) == size
    ensures ip.n / size != net / size
  {
  }

  lemma LeadingOctets(n: nat)
    requires n < 0x1_0000_0000
    ensures n / 0x100_0000 == Octet(n, 0) && n / 0x1_0000 == 256 * Octet(n, 0) + Octet(n, 1)
    ensures n / 0x100 == 256 * (n / 0x1_0000) + Octet(n, 2)
  {
  }

  lemma PartialOctets(n: nat)
    ensures n / 0x10_0000 == n / 0x1_0000 / 16 && n / 0x2000_0000 == n / 0x100_0000 / 32
  {
  }

  /** The large excluded blocks, by their leading bits. */
  lemma AvoidsLarge(ip: Ip)
    requires PublicIp(ip) && ip.family == V4
    ensures ip.n / 0x100_0000 !in {0, 10, 127} && ip.n / 0x2000_0000 != 7 && ip.n / 0x10_0000 != 0xac1
  {
    SmallPowers();
    Avoids(ip, 0, 0, 8, 0x100_0000);
    Avoids(ip, 1, 0x0a00_0000, 8, 0x100_0000);
    Avoids(ip, 3, 0x7f00_0000, 8, 0x100_0000);
    Avoids(ip, 6, 0xac10_0000, 12, 0x10_0000);
    Avoids(ip, 12, 0xe000_0000, 3, 0x2000_0000);
  }

  /** The small ones that the other filter tests too. */
  lemma AvoidsSmall(ip: Ip)
    requires PublicIp(ip) && ip.family == V4
    ensures ip.n / 0x1_0000 !in {0xa9fe, 0xc000, 0xc0a8} && ip.n / 0x100 !in {0xc63364, 0xcb0071}
  {
    SmallPowers();
    Avoids(ip, 4, 0xa9fe_0000, 16, 0x1_0000);
    Avoids(ip, 7, 0xc000_0000, 16, 0x1_0000);
    Avoids(ip, 8, 0xc0a8_0000, 16, 0x1_0000);
    Avoids(ip, 10, 0xc633_6400, 24, 0x100);
    Avoids(ip, 11, 0xcb00_7100, 24, 0x100);
  }

  lemma StricterV4(ip: Ip)
    requires ip.Valid() && PublicIp(ip) && ip.family == V4
    ensures IsPublicIp(ip)
  {
    SmallPowers();
    AvoidsLarge(ip);
    AvoidsSmall(ip);
    LeadingOctets(ip.n);
    PartialOctets(ip.n);
  }

  lemma FifthPower(k: nat)
    ensures var x := Pow2(k); Pow2(5 * k) == x * x * x * x * x
  {
    PowAdd(k, k);
    PowAdd(2 * k, k);
    PowAdd(3 * k, k);
    PowAdd(4 * k, k);
  }

  /** The size of an eighth of the IPv6 addresses, in units of one first segment. */
  lemma Eighth(k: nat)
    requires 5 * k == 125
    ensures Pow2(5 * k) == 0x2000 * 0x1_0000_0000_0000_0000_0000_0000_0000
  {
    SmallPowers();
    assert Pow2(k) == 0x200_0000;
    FifthPower(k);
  }

  /** The first segments of the addresses with leading bits 001. */
  lemma GlobalUnicast(n: nat, unit: nat)
    requires unit == 0x1_0000_0000_0000_0000_0000_0000_0000 && n / (0x2000 * unit) == 1
    ensures 0x2000 <= n / unit < 0x4000
  {
  }

  lemma StricterV6(ip: Ip)
    requires ip.Valid() && PublicIp(ip) && ip.family == V6
    ensures IsPublicIp(ip)
  {
    Eighth(25);
    GlobalUnicast(ip.n, 0x1_0000_0000_0000_0000_0000_0000_0000);
    var first := FirstSegment(ip.n);
    AndAtMost(first, 0xff00);
    AndAtMost(first, 0xfe00);
    AndAtMost(first, 0xffc0);
  }
}
