// Site ids to addresses (utils/mesh_addressing.js), and what NETMAP does with them.
module MeshAddressing {
  import opened Wrappers
  import opened Ipv4

  const MIN_SITE_ID := 1
  const MAX_SITE_ID := 254

  /** What `assertSiteId` lets through. */
  type SiteId = n: nat | MIN_SITE_ID <= n <= MAX_SITE_ID witness 1

  /** The two slots a site has for a shadow of a physical LAN. */
  datatype Slot = S168 | S172 {
    function Octet(): nat { if S168? then 168 else 172 }
  }

  const SHADOW_SLOTS: seq<Slot> := [S168, S172]

  /** An interface address together with its mask. */
  datatype Cidr = Cidr(addr: Addr, len: nat)

  function AssertSiteId(id: int): (r: Result<SiteId>) {
    if id < MIN_SITE_ID || id > MAX_SITE_ID
    then Threw("site id must be an integer in [1, 254]")
    else Ok(id)
  }

  function MeshIp(s: SiteId): Addr { Octets(172, 24, 0, s) }
  function MeshAddress(s: SiteId): Cidr { Cidr(MeshIp(s), 32) }
  function SiteGatewayIp(s: SiteId): Addr { Octets(10, s, 0, 1) }
  function SiteGatewayCidr(s: SiteId): Cidr { Cidr(SiteGatewayIp(s), 16) }

  function SiteCidr(s: SiteId): Prefix { Prefix(10 * 256 + s, 16) }
  function ClientPoolCidr(s: SiteId): Prefix { Prefix((10 * 256 + s) * 2 + 1, 17) }
  function ShadowCidr(s: SiteId, slot: Slot): Prefix { Prefix((10 * 256 + s) * 256 + slot.Octet(), 24) }
  function ServicesCidr(s: SiteId): Prefix { Prefix((10 * 256 + s) * 256, 24) }

  const SITES_RANGE := Prefix(10, 8)
  const MESH_RANGE := Prefix(172 * 256 + 24, 16)

  function PeerAllowedIps(s: SiteId): seq<Prefix> { [Host(MeshIp(s)), SiteCidr(s)] }
  function HubAllowedIps(): seq<Prefix> { [SITES_RANGE, MESH_RANGE] }

  // ------------------------------------------------------------------ geometry

  /** Two sites share nothing: not their /16s, not their mesh addresses, and neither /16 meets the
      mesh range. */
  lemma SitesAreDisjoint(s: SiteId, t: SiteId)
    ensures s != t ==> Disjoint(SiteCidr(s), SiteCidr(t)) && MeshIp(s) != MeshIp(t)
    ensures Disjoint(SiteCidr(s), MESH_RANGE)
    ensures Within(SiteCidr(s), SITES_RANGE) && Contains(MESH_RANGE, MeshIp(s))
  {
    Sizes();
  }

  /** Everything a site numbers lies in its own /16. The client pool is the upper half, which holds
      both shadows and misses the services range. */
  lemma SiteLayout(s: SiteId, slot: Slot)
    ensures Within(ShadowCidr(s, slot), ClientPoolCidr(s)) && Within(ClientPoolCidr(s), SiteCidr(s))
    ensures Within(ServicesCidr(s), SiteCidr(s)) && Disjoint(ServicesCidr(s), ClientPoolCidr(s))
    ensures Contains(ServicesCidr(s), SiteGatewayIp(s))
  {
    Sizes();
  }

  lemma ShadowsAreDisjoint(s: SiteId, slot: Slot, t: SiteId, other: Slot)
    requires (s, slot) != (t, other)
    ensures Disjoint(ShadowCidr(s, slot), ShadowCidr(t, other))
  {
    Sizes();
  }

  /** The ranges in dotted terms: which addresses a.b.c.d lie in them. */
  lemma RangesInOctets(s: SiteId, slot: Slot, a: nat, b: nat, c: nat, d: nat)
    requires a < 256 && b < 256 && c < 256 && d < 256
    ensures Contains(SiteCidr(s), Octets(a, b, c, d)) <==> a == 10 && b == s
    ensures Contains(ShadowCidr(s, slot), Octets(a, b, c, d)) <==>
              a == 10 && b == s && c == (if slot == S168 then 168 else 172)
    ensures Contains(ClientPoolCidr(s), Octets(a, b, c, d)) <==> a == 10 && b == s && c >= 128
    ensures Contains(ServicesCidr(s), Octets(a, b, c, d)) <==> a == 10 && b == s && c == 0
    ensures Contains(SITES_RANGE, Octets(a, b, c, d)) <==> a == 10
    ensures Contains(MESH_RANGE, Octets(a, b, c, d)) <==> a == 172 && b == 24
  {
    Sizes();
  }

  /** Exactly the ids 1 to 254 are let through, as they are. */
  lemma SiteIdsExactly(id: int)
    ensures AssertSiteId(id).Ok? <==> 1 <= id <= 254
    ensures AssertSiteId(id).Ok? ==> AssertSiteId(id).value == id
  {
  }

  // ------------------------------------------------------------------- NETMAP

  /** The 1:1 rewrite: the network part is replaced by that of `to`, the host part of `to` kept. */
  function Translate(to: Prefix, a: Addr): (r: nat)
    requires to.Prefix? && to.len <= 32
  {
    to.net * Size(to.len) + a % Size(to.len)
  }

  predicate IsNetwork(p: Prefix) {
    p.Prefix? && p.len <= 32 && p.net < Pow2(p.len)
  }

  /** Mesh to LAN and back gives every shadow address to itself again. */
  ghost predicate ShadowRoundTrip(shadow: Prefix, physical: Prefix)
    requires IsNetwork(shadow) && IsNetwork(physical)
  {
    forall a: Addr :: Contains(shadow, a) ==>
      Translate(physical, a) < 0x1_0000_0000 && Translate(shadow, Translate(physical, a)) == a
  }

  /** LAN to mesh and back gives every LAN host to itself again. */
  ghost predicate LanRoundTrip(shadow: Prefix, physical: Prefix)
    requires IsNetwork(shadow) && IsNetwork(physical)
  {
    forall a: Addr :: Contains(physical, a) ==>
      Translate(shadow, a) < 0x1_0000_0000 && Translate(physical, Translate(shadow, a)) == a
  }

  /** A rewritten address is an address, inside `to`, and keeps its host part. */
  lemma NetmapLands(to: Prefix, a: Addr)
    requires IsNetwork(to)
    ensures Translate(to, a) < 0x1_0000_0000
    ensures Contains(to, Translate(to, a)) && Translate(to, a) % Size(to.len) == a % Size(to.len)
  {
    NetworkFits(to, a % Size(to.len));
  }

  /** Network and host part together make an address of the network. */
  lemma NetworkFits(p: Prefix, h: nat)
    requires IsNetwork(p) && h < Size(p.len)
    ensures 0 <= p.net * Size(p.len) + h < 0x1_0000_0000
    ensures Contains(p, p.net * Size(p.len) + h) && (p.net * Size(p.len) + h) % Size(p.len) == h
  {
    var s := Size(p.len);
    Pow2Adds(p.len, 32 - p.len);
    assert Pow2(32) == 0x1_0000_0000 by {
      Sizes();
    }
    BelowProduct(p.net, h, s, Pow2(p.len));
    DivModOf(p.net * s + h, p.net, h, s);
  }

  lemma BelowProduct(a: nat, h: nat, s: nat, w: nat)
    requires a < w && h < s
    ensures 0 <= a * s + h < w * s
  {
    MulMono(a + 1, w, s);
    Distributes(a, 1, s);
  }

  /** Addresses of a network are told apart by their host part. */
  lemma HostPart(p: Prefix, a: Addr)
    requires Contains(p, a)
    ensures a == p.net * Size(p.len) + a % Size(p.len)
  {
  }

  /** Out through `mid` and back into `p` is the identity on `p` when `mid` is at least as wide. */
  lemma RoundTripThroughWider(p: Prefix, mid: Prefix, a: Addr)
    requires IsNetwork(p) && IsNetwork(mid) && mid.len <= p.len && Contains(p, a)
    ensures Translate(mid, a) < 0x1_0000_0000 && Translate(p, Translate(mid, a)) == a
  {
    NetmapLands(mid, a);
    var k, m := Size(p.len), Pow2(p.len - mid.len);
    Pow2Adds(p.len - mid.len, 32 - p.len);
    assert Size(mid.len) == m * k;
    var b := Translate(mid, a);
    ModOfMod(b, k, m, Size(mid.len));
    ModOfMod(a, k, m, Size(mid.len));
    assert b % k == a % k;
    HostPart(p, a);
  }

  /** Through a narrower network two different addresses become one, so the way back is lost. */
  lemma NoRoundTripThroughNarrower(p: Prefix, mid: Prefix) returns (a: Addr)
    requires IsNetwork(p) && IsNetwork(mid) && mid.len > p.len
    ensures Contains(p, a) && Translate(mid, a) < 0x1_0000_0000 && Translate(p, Translate(mid, a)) != a
  {
    var k := Size(mid.len);
    NarrowerFitsTwice(p, mid);
    NetworkFits(p, 0);
    NetworkFits(p, k);
    var lo, hi := p.net * Size(p.len), p.net * Size(p.len) + k;
    SameHostPart(p, mid);
    NetmapLands(mid, lo);
    if Translate(p, Translate(mid, lo)) == lo {
      a := hi;
    } else {
      a := lo;
    }
  }

  lemma NarrowerFitsTwice(p: Prefix, mid: Prefix)
    requires IsNetwork(p) && IsNetwork(mid) && mid.len > p.len
    ensures Size(p.len) == Pow2(mid.len - p.len) * Size(mid.len) && Size(mid.len) < Size(p.len)
  {
    var k, half := Size(mid.len), Pow2(mid.len - p.len - 1);
    Pow2Adds(mid.len - p.len, 32 - mid.len);
    MulMono(2, 2 * half, k);
  }

  /** The first address of a network and the one `mid`'s size behind it look alike to `mid`. */
  lemma SameHostPart(p: Prefix, mid: Prefix)
    requires IsNetwork(p) && IsNetwork(mid) && mid.len > p.len
    ensures (p.net * Size(p.len)) % Size(mid.len) == (p.net * Size(p.len) + Size(mid.len)) % Size(mid.len)
  {
    NarrowerFitsTwice(p, mid);
    NextMultiple(p.net, Pow2(mid.len - p.len), Size(mid.len), Size(p.len));
  }

  /** A multiple of a multiple of `k`, and the number `k` behind it, leave no remainder. */
  lemma NextMultiple(a: nat, m: nat, k: nat, n: nat)
    requires k >= 1 && n == m * k
    ensures (a * n) % k == (a * n + k) % k
  {
    var q := a * m;
    Associates(a, m, k);
    assert a * n == q * k;
    RemainderOfMultiple(q, k);
    RemainderOfMultiple(q + 1, k);
    Distributes(q, 1, k);
  }

  lemma RemainderOfMultiple(q: nat, k: nat)
    requires k >= 1
    ensures q * k >= 0 && (q * k) % k == 0
  {
    DivModOf(q * k, q, 0, k);
  }

  /** NETMAP between a shadow /24 and a LAN loses nothing in either direction exactly when the LAN is
      itself a /24. A wider LAN keeps only the mesh side whole, a narrower one only the LAN side. */
  lemma NetmapIsBijectiveExactlyFor24(s: SiteId, slot: Slot, physical: Prefix)
    requires IsNetwork(physical)
    ensures IsNetwork(ShadowCidr(s, slot))
    ensures ShadowRoundTrip(ShadowCidr(s, slot), physical) <==> physical.len <= 24
    ensures LanRoundTrip(ShadowCidr(s, slot), physical) <==> physical.len >= 24
  {
    var shadow := ShadowCidr(s, slot);
    Sizes();
    if physical.len <= 24 {
      forall a: Addr | Contains(shadow, a)
        ensures Translate(physical, a) < 0x1_0000_0000 && Translate(shadow, Translate(physical, a)) == a
      {
        RoundTripThroughWider(shadow, physical, a);
      }
    } else {
      var a := NoRoundTripThroughNarrower(shadow, physical);
    }
    if physical.len >= 24 {
      forall a: Addr | Contains(physical, a)
        ensures Translate(shadow, a) < 0x1_0000_0000 && Translate(physical, Translate(shadow, a)) == a
      {
        RoundTripThroughWider(physical, shadow, a);
      }
    } else {
      var a := NoRoundTripThroughNarrower(physical, shadow);
    }
  }

  /** Two machines never appear under one mesh address, though every site numbers its LAN alike. */
  lemma MeshAddressNamesOneMachine(s: SiteId, slot: Slot, a: Addr, t: SiteId, other: Slot, b: Addr, lan: Prefix)
    requires IsNetwork(lan) && lan.len >= 24 && Contains(lan, a) && Contains(lan, b)
    requires Translate(ShadowCidr(s, slot), a) == Translate(ShadowCidr(t, other), b)
    ensures s == t && slot == other && a == b
  {
    Sizes();
    ShadowIsNetwork(s, slot);
    ShadowIsNetwork(t, other);
    NetmapLands(ShadowCidr(s, slot), a);
    NetmapLands(ShadowCidr(t, other), b);
    if (s, slot) != (t, other) {
      ShadowsAreDisjoint(s, slot, t, other);
      assert false;
    }
    RoundTripThroughWider(lan, ShadowCidr(s, slot), a);
    RoundTripThroughWider(lan, ShadowCidr(t, other), b);
  }

  lemma ShadowIsNetwork(s: SiteId, slot: Slot)
    ensures IsNetwork(ShadowCidr(s, slot))
  {
    Sizes();
  }

  /** 10.s.168.n is 192.168.1.n, and the other way round. */
  lemma ShadowMirrorsLan(s: SiteId, n: nat)
    requires n < 256
    ensures var lan := Prefix(192 * 0x1_0000 + 168 * 0x100 + 1, 24);
      && Contains(lan, Octets(192, 168, 1, n))
      && Translate(lan, Octets(10, s, 168, n)) == Octets(192, 168, 1, n)
      && Translate(ShadowCidr(s, S168), Octets(192, 168, 1, n)) == Octets(10, s, 168, n)
  {
    Sizes();
  }
}
