// From the directory's documents to the plan for the mesh interface (planReconcile in
// services/mesh_state.js), and what the plan means for a packet.
module MeshPlan {
  import opened Wrappers
  import opened Ipv4
  import opened MeshAddressing
  import opened Kernel

  // ---------------------------------------------------------------- documents

  /** A gateway this one peers with, with its AllowedIPs resolved by the directory. Empty strings stand
      for what has not been published. */
  datatype SitePeer = SitePeer(siteId: int, slug: string, publicKey: Key, endpoint: string, allowedIps: seq<Prefix>)

  /** `localSiteId` is 0 while this site has not joined. */
  datatype PeersDoc = PeersDoc(localSiteId: int, peers: seq<SitePeer>, exitPeers: seq<SitePeer>)

  datatype Client = Client(uid: string, name: string, publicKey: Key, assignedIp: Option<Addr>, exitSiteId: Option<int>)

  /** A roster row. */
  datatype Site = Site(siteId: nat, slug: string, lan168: Option<Prefix>, lan172: Option<Prefix>,
                       gatewayPublicKey: Key, gatewayEndpoint: string)

  // --------------------------------------------------------------------- plan

  datatype Kind = SiteKind | ExitClientKind | ClientKind

  datatype Label = Named(slug: string) | Numbered(siteId: int) | Device(uid: string, name: string)

  datatype PeerPlan = PeerPlan(kind: Kind, name: Label, publicKey: Key, endpoint: string,
                               allowedIPs: seq<Prefix>, keepalive: nat, exitSiteId: Option<int>)

  datatype Plan = Plan(siteId: SiteId, addresses: seq<Cidr>, peers: seq<PeerPlan>, routes: seq<Prefix>,
                       netmaps: seq<Mapping>, siteCidr: Prefix)

  datatype Planned = NotReady | Ready(plan: Plan)

  const MESH_ROUTES: seq<Prefix> := [SITES_RANGE, MESH_RANGE]

  predicate Usable(peer: SitePeer) {
    peer.publicKey != "" && peer.allowedIps != []
  }

  function LabelOf(peer: SitePeer): Label {
    if peer.slug != "" then Label.Named(peer.slug) else Numbered(peer.siteId)
  }

  function SitePlan(peer: SitePeer): PeerPlan {
    PeerPlan(SiteKind, LabelOf(peer), peer.publicKey, peer.endpoint, peer.allowedIps,
             if peer.endpoint != "" then 25 else 0, None)
  }

  function ExitClientPlan(peer: SitePeer): PeerPlan {
    PeerPlan(ExitClientKind, LabelOf(peer), peer.publicKey, "", peer.allowedIps, 0, None)
  }

  predicate Connectable(c: Client) {
    c.publicKey != "" && c.assignedIp.Some?
  }

  function ClientPlan(c: Client): PeerPlan
    requires Connectable(c)
  {
    PeerPlan(ClientKind, Device(c.uid, c.name), c.publicKey, "", [Host(c.assignedIp.value)], 0, c.exitSiteId)
  }

  function SitePlans(peers: seq<SitePeer>): seq<PeerPlan> {
    if peers == [] then []
    else if Usable(peers[0]) then [SitePlan(peers[0])] + SitePlans(peers[1..])
    else SitePlans(peers[1..])
  }

  function ExitClientPlans(peers: seq<SitePeer>): seq<PeerPlan> {
    if peers == [] then []
    else if Usable(peers[0]) then [ExitClientPlan(peers[0])] + ExitClientPlans(peers[1..])
    else ExitClientPlans(peers[1..])
  }

  function ClientPlans(clients: seq<Client>): seq<PeerPlan> {
    if clients == [] then []
    else if Connectable(clients[0]) then [ClientPlan(clients[0])] + ClientPlans(clients[1..])
    else ClientPlans(clients[1..])
  }

  function LanOf(site: Option<Site>, slot: Slot): Option<Prefix> {
    if site == None then None else if slot.S168? then site.value.lan168 else site.value.lan172
  }

  function NetmapPlans(s: SiteId, site: Option<Site>, slots: seq<Slot>): seq<Mapping> {
    if slots == [] then []
    else
      var lan := LanOf(site, slots[0]);
      if lan.Some? then [Mapping(ShadowCidr(s, slots[0]), lan.value)] + NetmapPlans(s, site, slots[1..])
      else NetmapPlans(s, site, slots[1..])
  }

  /** The specification of planReconcile. */
  function PlanOf(doc: PeersDoc, clients: seq<Client>, site: Option<Site>): Result<Planned> {
    if doc.localSiteId == 0 then Ok(NotReady)
    else
      match AssertSiteId(doc.localSiteId)
      case Threw(error) => Threw(error)
      case Ok(s) =>
        Ok(Ready(Plan(
          s, [MeshAddress(s), SiteGatewayCidr(s)],
          SitePlans(doc.peers) + ExitClientPlans(doc.exitPeers) + ClientPlans(clients),
          MESH_ROUTES, NetmapPlans(s, site, SHADOW_SLOTS), SiteCidr(s))))
  }

  method PlanReconcile(doc: PeersDoc, clients: seq<Client>, site: Option<Site>) returns (r: Result<Planned>)
    ensures r == PlanOf(doc, clients, site)
  {
    if doc.localSiteId == 0 {
      return Ok(NotReady);
    }
    var checked := AssertSiteId(doc.localSiteId);
    if checked.Threw? {
      return Threw(checked.error);
    }
    var s := checked.value;
    var peers := PushGateways(doc);
    peers := PushClients(peers, clients);
    var netmaps := PushNetmaps(s, site);
    r := Ok(Ready(Plan(s, [MeshAddress(s), SiteGatewayCidr(s)], peers, MESH_ROUTES, netmaps, SiteCidr(s))));
  }

  /** The loops of planReconcile over the gateways. */
  method PushGateways(doc: PeersDoc) returns (peers: seq<PeerPlan>)
    ensures peers == SitePlans(doc.peers) + ExitClientPlans(doc.exitPeers)
  {
    peers := [];
    for i := 0 to |doc.peers|
      invariant peers + SitePlans(doc.peers[i..]) == SitePlans(doc.peers)
    {
      assert doc.peers[i..][1..] == doc.peers[i + 1..];
      if Usable(doc.peers[i]) {
        peers := peers + [SitePlan(doc.peers[i])];
      }
    }
    ghost var sites := peers;
    assert sites == SitePlans(doc.peers);
    for i := 0 to |doc.exitPeers|
      invariant peers + ExitClientPlans(doc.exitPeers[i..]) == sites + ExitClientPlans(doc.exitPeers)
    {
      assert doc.exitPeers[i..][1..] == doc.exitPeers[i + 1..];
      if Usable(doc.exitPeers[i]) {
        peers := peers + [ExitClientPlan(doc.exitPeers[i])];
      }
    }
  }

  /** The loop of planReconcile over the local devices. */
  method PushClients(before: seq<PeerPlan>, clients: seq<Client>) returns (peers: seq<PeerPlan>)
    ensures peers == before + ClientPlans(clients)
  {
    peers := before;
    for i := 0 to |clients|
      invariant peers + ClientPlans(clients[i..]) == before + ClientPlans(clients)
    {
      assert clients[i..][1..] == clients[i + 1..];
      if Connectable(clients[i]) {
        peers := peers + [ClientPlan(clients[i])];
      }
    }
  }

  /** The loop of planReconcile over the shadow slots. */
  method PushNetmaps(s: SiteId, site: Option<Site>) returns (netmaps: seq<Mapping>)
    ensures netmaps == NetmapPlans(s, site, SHADOW_SLOTS)
  {
    netmaps := [];
    for i := 0 to |SHADOW_SLOTS|
      invariant netmaps + NetmapPlans(s, site, SHADOW_SLOTS[i..]) == NetmapPlans(s, site, SHADOW_SLOTS)
    {
      assert SHADOW_SLOTS[i..][1..] == SHADOW_SLOTS[i + 1..];
      var lan := LanOf(site, SHADOW_SLOTS[i]);
      if lan.Some? {
        netmaps := netmaps + [Mapping(ShadowCidr(s, SHADOW_SLOTS[i]), lan.value)];
      }
    }
  }

  // ------------------------------------------------------------ packet meaning

  /** Cryptokey routing: the peer that holds the longest prefix around `a`. A packet to `a` goes to that
      peer, and a packet from `a` is accepted from that peer alone (WireGuard whitepaper, section 2). */
  ghost predicate RoutesTo(owner: map<Prefix, Key>, a: Addr, key: Key) {
    exists p :: p in owner && owner[p] == key && Contains(p, a) && Longest(owner, p, a)
  }

  ghost predicate Longest(owner: map<Prefix, Key>, p: Prefix, a: Addr)
    requires p.Prefix?
  {
    forall q :: q in owner && Contains(q, a) ==> q.len <= p.len
  }

  /** The interface holds exactly what the peers list. */
  ghost predicate HoldsExactly(owner: map<Prefix, Key>, peers: seq<PeerPlan>) {
    && (forall p :: p in owner ==>
          exists i :: 0 <= i < |peers| && peers[i].publicKey == owner[p] && p in peers[i].allowedIPs)
    && (forall i, p :: 0 <= i < |peers| && p in peers[i].allowedIPs ==> p in owner && owner[p] == peers[i].publicKey)
  }

  /** What the directory hands out: other sites' peers hold their mesh address and /16, the hub the
      catch-alls on top, devices exiting here single addresses of other sites, local devices single
      addresses of this site. No two peers share a key or a prefix. */
  ghost predicate Shaped(s: SiteId, peers: seq<PeerPlan>) {
    && (forall i :: 0 <= i < |peers| ==> ShapedPeer(s, peers[i]))
    && Distinct(peers)
  }

  ghost predicate ShapedPeer(s: SiteId, peer: PeerPlan) {
    match peer.kind
    case SiteKind =>
      exists t: SiteId :: t != s && peer.allowedIPs in {PeerAllowedIps(t), HubAllowedIps() + PeerAllowedIps(t)}
    case ExitClientKind =>
      forall p :: p in peer.allowedIPs ==>
        p.Prefix? && p.len == 32 && p.net < 0x1_0000_0000 && !Contains(SiteCidr(s), p.net)
    case ClientKind => exists a: Addr :: peer.allowedIPs == [Host(a)] && Contains(SiteCidr(s), a)
  }

  ghost predicate Distinct(peers: seq<PeerPlan>) {
    forall i, j :: 0 <= i < j < |peers| ==>
      peers[i].publicKey != peers[j].publicKey && forall p :: p in peers[i].allowedIPs ==> p !in peers[j].allowedIPs
  }

  predicate Lists(peer: PeerPlan, p: Prefix) { p in peer.allowedIPs }

  /** Where the plan means a packet to `a` to go: to the peer listing that very address; else to the site
      whose /16 it is in; else to the hub, for the whole mesh; else nowhere. */
  ghost predicate MeantFor(peers: seq<PeerPlan>, a: Addr, i: nat)
    requires i < |peers|
  {
    Lists(peers[i], Host(a)) ||
    (!ListedAnywhere(peers, Host(a)) &&
      (InSiteOf(peers[i], a) ||
        ((forall j :: 0 <= j < |peers| ==> !InSiteOf(peers[j], a)) && InCatchAllOf(peers[i], a))))
  }

  ghost predicate ListedAnywhere(peers: seq<PeerPlan>, p: Prefix) {
    exists j :: 0 <= j < |peers| && Lists(peers[j], p)
  }

  ghost predicate InSiteOf(peer: PeerPlan, a: Addr) {
    peer.kind == SiteKind && exists t: SiteId :: Lists(peer, SiteCidr(t)) && Contains(SiteCidr(t), a)
  }

  predicate InCatchAllOf(peer: PeerPlan, a: Addr) {
    peer.kind == SiteKind && exists p :: p in HubAllowedIps() && Lists(peer, p) && Contains(p, a)
  }

  /** What a listed prefix can be. */
  lemma ShapedPrefix(s: SiteId, peer: PeerPlan, p: Prefix, a: Addr)
    requires ShapedPeer(s, peer) && Lists(peer, p) && Contains(p, a)
    ensures p == Host(a) || (p.len == 16 && p != MESH_RANGE && InSiteOf(peer, a))
              || (p in HubAllowedIps() && InCatchAllOf(peer, a))
  {
    Sizes();
    if peer.kind == SiteKind {
      var t: SiteId :| t != s && peer.allowedIPs in {PeerAllowedIps(t), HubAllowedIps() + PeerAllowedIps(t)};
      if p == SiteCidr(t) {
        assert Lists(peer, SiteCidr(t));
      }
    }
  }

  /** The plan means what WireGuard does: after a pass that left exactly the planned prefixes, a packet
      goes to a peer if and only if the plan means it to, and comes in from that peer under the same
      condition. */
  lemma PlanMeansWhatItRoutes(s: SiteId, peers: seq<PeerPlan>, owner: map<Prefix, Key>, a: Addr, i: nat)
    requires Shaped(s, peers) && HoldsExactly(owner, peers) && i < |peers|
    ensures RoutesTo(owner, a, peers[i].publicKey) <==> MeantFor(peers, a, i)
  {
    if MeantFor(peers, a, i) {
      var p := MeantPrefix(s, peers, a, i);
      MeantPrefixIsLongest(s, peers, owner, a, i, p);
    }
    if RoutesTo(owner, a, peers[i].publicKey) {
      var p :| p in owner && owner[p] == peers[i].publicKey && Contains(p, a) && Longest(owner, p, a);
      var j :| 0 <= j < |peers| && peers[j].publicKey == owner[p] && p in peers[j].allowedIPs;
      assert j == i;
      RoutedIsMeant(s, peers, owner, a, i, p);
    }
  }

  /** The prefix by which a peer is meant. */
  lemma MeantPrefix(s: SiteId, peers: seq<PeerPlan>, a: Addr, i: nat) returns (p: Prefix)
    requires Shaped(s, peers) && i < |peers| && MeantFor(peers, a, i)
    ensures Lists(peers[i], p) && Contains(p, a)
    ensures p == Host(a) ||
            (!ListedAnywhere(peers, Host(a)) &&
              (p.len == 16 || ((forall j :: 0 <= j < |peers| ==> !InSiteOf(peers[j], a)) && p in HubAllowedIps())))
  {
    Sizes();
    if Lists(peers[i], Host(a)) {
      p := Host(a);
    } else if InSiteOf(peers[i], a) {
      var t: SiteId :| Lists(peers[i], SiteCidr(t)) && Contains(SiteCidr(t), a);
      p := SiteCidr(t);
    } else {
      p :| p in HubAllowedIps() && Lists(peers[i], p) && Contains(p, a);
    }
  }

  lemma MeantPrefixIsLongest(s: SiteId, peers: seq<PeerPlan>, owner: map<Prefix, Key>, a: Addr, i: nat, p: Prefix)
    requires Shaped(s, peers) && HoldsExactly(owner, peers) && i < |peers|
    requires Lists(peers[i], p) && Contains(p, a)
    requires p == Host(a) ||
             (!ListedAnywhere(peers, Host(a)) &&
               (p.len == 16 || ((forall j :: 0 <= j < |peers| ==> !InSiteOf(peers[j], a)) && p in HubAllowedIps())))
    ensures RoutesTo(owner, a, peers[i].publicKey)
  {
    forall q | q in owner && Contains(q, a) ensures q.len <= p.len {
      var j :| 0 <= j < |peers| && peers[j].publicKey == owner[q] && q in peers[j].allowedIPs;
      assert Lists(peers[j], q);
      ShapedPrefix(s, peers[j], q, a);
      CatchAllsDoNotOverlap(p, q, a);
    }
  }

  lemma CatchAllsDoNotOverlap(p: Prefix, q: Prefix, a: Addr)
    requires Contains(p, a) && Contains(q, a)
    ensures p in HubAllowedIps() && q in HubAllowedIps() ==> p == q
  {
    Sizes();
  }

  lemma RoutedIsMeant(s: SiteId, peers: seq<PeerPlan>, owner: map<Prefix, Key>, a: Addr, i: nat, p: Prefix)
    requires Shaped(s, peers) && HoldsExactly(owner, peers) && i < |peers|
    requires Lists(peers[i], p) && Contains(p, a) && Longest(owner, p, a)
    ensures MeantFor(peers, a, i)
  {
    ShapedPrefix(s, peers[i], p, a);
    if p != Host(a) {
      Sizes();
      assert Contains(Host(a), a);
      ListedIsHeld(peers, owner, Host(a));
      if p in HubAllowedIps() {
        CatchAllIsLast(peers, owner, a, p);
      }
    }
  }

  lemma ListedIsHeld(peers: seq<PeerPlan>, owner: map<Prefix, Key>, p: Prefix)
    requires HoldsExactly(owner, peers)
    ensures ListedAnywhere(peers, p) ==> p in owner
  {
  }

  lemma CatchAllIsLast(peers: seq<PeerPlan>, owner: map<Prefix, Key>, a: Addr, p: Prefix)
    requires HoldsExactly(owner, peers) && p in HubAllowedIps() && Contains(p, a) && Longest(owner, p, a)
    ensures forall j :: 0 <= j < |peers| ==> !InSiteOf(peers[j], a)
  {
    Sizes();
  }

  /** A local device gets its own packets although the hub holds 10.0.0.0/8, and may send from its own
      address only. */
  lemma DevicesOwnOneAddress(s: SiteId, peers: seq<PeerPlan>, owner: map<Prefix, Key>, i: nat, a: Addr, b: Addr)
    requires Shaped(s, peers) && HoldsExactly(owner, peers) && i < |peers|
    requires peers[i].kind == ClientKind && peers[i].allowedIPs == [Host(a)]
    ensures RoutesTo(owner, b, peers[i].publicKey) <==> b == a
  {
    PlanMeansWhatItRoutes(s, peers, owner, b, i);
    assert Lists(peers[i], Host(b)) <==> b == a;
  }

  /** No two peers are routed the same address. */
  lemma RoutesToOnePeer(owner: map<Prefix, Key>, a: Addr, key: Key, other: Key)
    requires RoutesTo(owner, a, key) && RoutesTo(owner, a, other)
    ensures key == other
  {
    var p :| p in owner && owner[p] == key && Contains(p, a) && Longest(owner, p, a);
    var q :| q in owner && owner[q] == other && Contains(q, a) && Longest(owner, q, a);
    assert p.len == q.len;
  }

  // ------------------------------------------------- the plan, in the documents' fields

  /** When there is a plan: with a site id from 1 to 254. Without an id there is none, any other throws. */
  lemma PlanOutcome(doc: PeersDoc, clients: seq<Client>, site: Option<Site>)
    ensures PlanOf(doc, clients, site) == Ok(NotReady) <==> doc.localSiteId == 0
    ensures PlanOf(doc, clients, site).Threw? <==> doc.localSiteId < 0 || doc.localSiteId > 254
    ensures forall plan :: PlanOf(doc, clients, site) == Ok(Ready(plan)) ==> plan.siteId == doc.localSiteId
  {
    SiteIdsExactly(doc.localSiteId);
  }

  /** The gateway's addresses are 172.24.0.s/32 and 10.s.0.1/16, and 10.0.0.0/8 and 172.24.0.0/16 go to the mesh. */
  lemma AddressesInFields(doc: PeersDoc, clients: seq<Client>, site: Option<Site>, plan: Plan)
    requires PlanOf(doc, clients, site) == Ok(Ready(plan))
    ensures plan.addresses == [Cidr(Octets(172, 24, 0, plan.siteId), 32), Cidr(Octets(10, plan.siteId, 0, 1), 16)]
    ensures plan.routes == [Prefix(10, 8), Prefix(172 * 256 + 24, 16)]
    ensures plan.siteCidr == Prefix(10 * 256 + plan.siteId, 16)
  {
  }

  /** 10.s.168.0/24 is mapped to the LAN the site's row has in its first field, 10.s.172.0/24 to that of its
      second, and nothing else is mapped. */
  lemma NetmapsInFields(doc: PeersDoc, clients: seq<Client>, site: Option<Site>, plan: Plan, m: Mapping)
    requires PlanOf(doc, clients, site) == Ok(Ready(plan))
    ensures m in plan.netmaps <==>
              var first := (10 * 256 + plan.siteId) * 256;
              && site.Some?
              && ((m.shadow == Prefix(first + 168, 24) && site.value.lan168 == Some(m.physical))
                  || (m.shadow == Prefix(first + 172, 24) && site.value.lan172 == Some(m.physical)))
  {
    var slots := SHADOW_SLOTS;
    var second := NetmapPlans(plan.siteId, site, [S172]);
    assert slots[1..] == [S172] && [S172][1..] == [] && NetmapPlans(plan.siteId, site, []) == [];
    assert m in second <==>
             LanOf(site, S172).Some? && m == Mapping(ShadowCidr(plan.siteId, S172), LanOf(site, S172).value);
    assert plan.netmaps == if LanOf(site, S168).Some?
                           then [Mapping(ShadowCidr(plan.siteId, S168), LanOf(site, S168).value)] + second else second;
  }

  lemma {:induction false} OnlyKind(peers: seq<SitePeer>, clients: seq<Client>)
    ensures forall x :: x in SitePlans(peers) ==> x.kind == SiteKind
    ensures forall x :: x in ExitClientPlans(peers) ==> x.kind == ExitClientKind
    ensures forall x :: x in ClientPlans(clients) ==> x.kind == ClientKind
    decreases |peers| + |clients|
  {
    if peers != [] {
      OnlyKind(peers[1..], clients);
    } else if clients != [] {
      OnlyKind(peers, clients[1..]);
    }
  }

  function Rank(k: Kind): nat {
    match k
    case SiteKind => 0
    case ExitClientKind => 1
    case ClientKind => 2
  }

  /** Gateways come first, then gateways exiting here, then devices: in a dispute over a prefix, which the last
      one to claim it wins, a device wins over any gateway. */
  lemma DevicesComeLast(doc: PeersDoc, clients: seq<Client>, site: Option<Site>, plan: Plan, i: nat, j: nat)
    requires PlanOf(doc, clients, site) == Ok(Ready(plan)) && i < j < |plan.peers|
    ensures Rank(plan.peers[i].kind) <= Rank(plan.peers[j].kind)
  {
    var a, b, c := SitePlans(doc.peers), ExitClientPlans(doc.exitPeers), ClientPlans(clients);
    OnlyKind(doc.peers, clients);
    OnlyKind(doc.exitPeers, clients);
    assert plan.peers == a + b + c;
    assert i < |a| ==> plan.peers[i] in a;
    assert |a| <= i < |a| + |b| ==> plan.peers[i] in b;
    assert i >= |a| + |b| ==> plan.peers[i] in c;
    assert j < |a| ==> plan.peers[j] in a;
    assert |a| <= j < |a| + |b| ==> plan.peers[j] in b;
    assert j >= |a| + |b| ==> plan.peers[j] in c;
  }

  /** Rows are taken in the order of the documents: what comes of two lists one behind the other is what comes of the
      first, and then of the second. */
  lemma {:induction false} GatewaysKeepOrder(a: seq<SitePeer>, b: seq<SitePeer>)
    ensures SitePlans(a + b) == SitePlans(a) + SitePlans(b)
    ensures ExitClientPlans(a + b) == ExitClientPlans(a) + ExitClientPlans(b)
    decreases a
  {
    if a == [] {
      assert a + b == b;
    } else {
      assert (a + b)[1..] == a[1..] + b;
      GatewaysKeepOrder(a[1..], b);
    }
  }

  lemma {:induction false} DevicesKeepOrder(a: seq<Client>, b: seq<Client>)
    ensures ClientPlans(a + b) == ClientPlans(a) + ClientPlans(b)
    decreases a
  {
    if a == [] {
      assert a + b == b;
    } else {
      assert (a + b)[1..] == a[1..] + b;
      DevicesKeepOrder(a[1..], b);
    }
  }
}
