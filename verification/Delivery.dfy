// From the directory's documents to where a packet goes once a pass has run.
module Delivery {
  import opened Wrappers
  import opened Ipv4
  import opened MeshAddressing
  import opened Kernel
  import opened WgIface
  import opened MeshPlan
  import opened PeerReconcile
  import opened NetRouter
  import opened NetmapReconcile
  import opened MeshState
  import opened ExitPlan
  import opened ExitRules
  import opened ExitRouter
  import opened ExitSteering
  import opened Reconcile
  import opened Settling

  /** Documents as the directory hands them out to site `s`: the usable rows only matter. */
  ghost predicate ShapedDocs(s: SiteId, doc: PeersDoc, clients: seq<Client>) {
    && (forall p :: p in doc.peers && Usable(p) ==> ShapedPeer(s, SitePlan(p)))
    && (forall p :: p in doc.exitPeers && Usable(p) ==> ShapedPeer(s, ExitClientPlan(p)))
    && (forall c :: c in clients && Connectable(c) ==> Contains(SiteCidr(s), c.assignedIp.value))
  }

  /** All peers planned are usable rows of the documents, and all usable rows are planned. */
  lemma {:induction false} SitePlansMeaning(peers: seq<SitePeer>, x: PeerPlan)
    ensures x in SitePlans(peers) <==> exists p :: p in peers && Usable(p) && x == SitePlan(p)
  {
    if peers != [] {
      SitePlansMeaning(peers[1..], x);
      assert forall p :: p in peers <==> p == peers[0] || p in peers[1..];
    }
  }

  lemma {:induction false} ExitClientPlansMeaning(peers: seq<SitePeer>, x: PeerPlan)
    ensures x in ExitClientPlans(peers) <==> exists p :: p in peers && Usable(p) && x == ExitClientPlan(p)
  {
    if peers != [] {
      ExitClientPlansMeaning(peers[1..], x);
      assert forall p :: p in peers <==> p == peers[0] || p in peers[1..];
    }
  }

  lemma {:induction false} ClientPlansMeaning(clients: seq<Client>, x: PeerPlan)
    ensures x in ClientPlans(clients) <==> exists c :: c in clients && Connectable(c) && x == ClientPlan(c)
  {
    if clients != [] {
      ClientPlansMeaning(clients[1..], x);
      assert forall c :: c in clients <==> c == clients[0] || c in clients[1..];
    }
  }

  /** A peer is planned for every usable row and for no other. Only gateways with a published endpoint are
      dialled, and only they are kept alive; no device or gateway exiting here is. */
  lemma PlansComeFromRows(doc: PeersDoc, clients: seq<Client>, site: Option<Site>, plan: Plan, x: PeerPlan)
    requires PlanOf(doc, clients, site) == Ok(Ready(plan))
    ensures x in plan.peers <==>
              || (exists p :: p in doc.peers && Usable(p) && x == SitePlan(p))
              || (exists p :: p in doc.exitPeers && Usable(p) && x == ExitClientPlan(p))
              || (exists c :: c in clients && Connectable(c) && x == ClientPlan(c))
    ensures x in plan.peers ==> (x.keepalive > 0 <==> x.endpoint != "") && (x.endpoint != "" ==> x.kind == SiteKind)
  {
    SitePlansMeaning(doc.peers, x);
    ExitClientPlansMeaning(doc.exitPeers, x);
    ClientPlansMeaning(clients, x);
    assert plan.peers == SitePlans(doc.peers) + ExitClientPlans(doc.exitPeers) + ClientPlans(clients);
  }

  /** The planned peers in the rows' own fields. A gateway is a peer with its key, endpoint and prefixes, kept alive
      every 25 seconds if it has an endpoint; one exiting here and a device are never dialled; a device has its
      one address. Rows without a key, or without a prefix or address, are passed over. */
  lemma PeersInFields(doc: PeersDoc, clients: seq<Client>, site: Option<Site>, plan: Plan, x: PeerPlan)
    requires PlanOf(doc, clients, site) == Ok(Ready(plan))
    ensures x in plan.peers <==>
              || (exists p :: p in doc.peers && p.publicKey != "" && p.allowedIps != [] &&
                    x == PeerPlan(SiteKind, if p.slug == "" then Numbered(p.siteId) else Label.Named(p.slug),
                                  p.publicKey, p.endpoint, p.allowedIps, if p.endpoint == "" then 0 else 25, None))
              || (exists p :: p in doc.exitPeers && p.publicKey != "" && p.allowedIps != [] &&
                    x == PeerPlan(ExitClientKind, if p.slug == "" then Numbered(p.siteId) else Label.Named(p.slug),
                                  p.publicKey, "", p.allowedIps, 0, None))
              || (exists c :: c in clients && c.publicKey != "" && c.assignedIp.Some? &&
                    x == PeerPlan(ClientKind, Device(c.uid, c.name), c.publicKey, "",
                                  [Prefix(c.assignedIp.value, 32)], 0, c.exitSiteId))
  {
    PlansComeFromRows(doc, clients, site, plan, x);
  }

  /** Documents of that shape make a plan of that shape. */
  lemma ShapedDocsMakeShapedPlans(doc: PeersDoc, clients: seq<Client>, site: Option<Site>, plan: Plan)
    requires PlanOf(doc, clients, site) == Ok(Ready(plan))
    requires ShapedDocs(plan.siteId, doc, clients) && Distinct(plan.peers)
    ensures Shaped(plan.siteId, plan.peers)
  {
    forall i | 0 <= i < |plan.peers| ensures ShapedPeer(plan.siteId, plan.peers[i]) {
      PlansComeFromRows(doc, clients, site, plan, plan.peers[i]);
    }
  }

  /** Raising the mesh without failures leaves exactly the planned peers and prefixes on its interface. */
  lemma RaisedHoldsThePlan(net: Net, plan: Plan)
    requires Sound(net) && Distinct(plan.peers)
    ensures var links := MeshRaised(net, plan, {}).0.links;
            Mesh in links && links[Mesh].peers == Keys(plan.peers) && HoldsExactly(links[Mesh].owner, plan.peers)
  {
    MeshPassPutsInPlace(net, plan);
    var links := LinkReady(net.links, plan, {}).0;
    assert Consistent(links[Mesh]);
    ConvergesExactlyWithoutOverlap(Tunnel(links[Mesh], net.main), Mesh, plan.peers, {});
  }

  /** What comes after raising the mesh leaves its interface alone. */
  lemma PassKeepsRaised(h: Host, plan: Plan, exits: ExitPlan)
    requires Sound(h.net) && forall e :: e in exits.exits ==> OwnParameters(e)
    ensures var raised, after := MeshRaised(h.net, plan, {}).0, Pass(h, plan, exits);
      && PlanApplied(h, plan, {}).1.Ok?
      && Mesh in raised.links && Mesh in after.net.links && after.net.links[Mesh] == raised.links[Mesh]
  {
    MeshPassPutsInPlace(h.net, plan);
    var raised := MeshRaised(h.net, plan, {}).0;
    NatPassRemembers(h.(net := raised), plan, WanOf(raised.main, {}));
    ExitsLeaveMesh(PlanApplied(h, plan, {}).0.net, exits);
  }

  /** The mesh interface after an error-free pass holds exactly the planned peers and prefixes. */
  lemma PassHoldsThePlan(h: Host, d: Docs, plan: Plan)
    requires Sound(h.net) && d.peers.Some?
    requires PlanOf(d.peers.value, d.clients, SiteRow(d.sites, d.peers.value.localSiteId)) == Ok(Ready(plan))
    requires Distinct(plan.peers)
    ensures var links := HostAfter(h, d, {}).0.net.links;
            Mesh in links && links[Mesh].peers == Keys(plan.peers) && HoldsExactly(links[Mesh].owner, plan.peers)
  {
    ExitsAreTheChosen(d.clients, d.sites, plan.siteId);
    RaisedHoldsThePlan(h.net, plan);
    PassKeepsRaised(h, plan, PlanOfExits(d.clients, d.sites, plan.siteId));
  }

  /** From any state of the host: after an error-free pass with documents of the directory's shape, the
      mesh interface sends a packet to a peer, and takes one in from it, if and only if the plan means
      that address for that peer. */
  lemma PassDeliversAsMeant(h: Host, d: Docs, plan: Plan, a: Addr, i: nat)
    requires Sound(h.net) && d.peers.Some? && i < |plan.peers|
    requires PlanOf(d.peers.value, d.clients, SiteRow(d.sites, d.peers.value.localSiteId)) == Ok(Ready(plan))
    requires ShapedDocs(plan.siteId, d.peers.value, d.clients) && Distinct(plan.peers)
    ensures var links := HostAfter(h, d, {}).0.net.links;
            Mesh in links && (RoutesTo(links[Mesh].owner, a, plan.peers[i].publicKey) <==> MeantFor(plan.peers, a, i))
  {
    PassHoldsThePlan(h, d, plan);
    ShapedDocsMakeShapedPlans(d.peers.value, d.clients, SiteRow(d.sites, d.peers.value.localSiteId), plan);
    PlanMeansWhatItRoutes(plan.siteId, plan.peers, HostAfter(h, d, {}).0.net.links[Mesh].owner, a, i);
  }

  /** Every device of the clients document that can connect gets the packets to its address and no
      others, and may send from that address and no other, whatever the host was like before. */
  lemma DevicesGetTheirOwnPackets(h: Host, d: Docs, plan: Plan, c: Client, b: Addr)
    requires Sound(h.net) && d.peers.Some?
    requires PlanOf(d.peers.value, d.clients, SiteRow(d.sites, d.peers.value.localSiteId)) == Ok(Ready(plan))
    requires ShapedDocs(plan.siteId, d.peers.value, d.clients) && Distinct(plan.peers)
    requires c in d.clients && Connectable(c)
    ensures var links := HostAfter(h, d, {}).0.net.links;
            Mesh in links && (RoutesTo(links[Mesh].owner, b, c.publicKey) <==> b == c.assignedIp.value)
  {
    PassHoldsThePlan(h, d, plan);
    ShapedDocsMakeShapedPlans(d.peers.value, d.clients, SiteRow(d.sites, d.peers.value.localSiteId), plan);
    PlansComeFromRows(d.peers.value, d.clients, SiteRow(d.sites, d.peers.value.localSiteId), plan, ClientPlan(c));
    var i :| 0 <= i < |plan.peers| && plan.peers[i] == ClientPlan(c);
    DevicesOwnOneAddress(plan.siteId, plan.peers, HostAfter(h, d, {}).0.net.links[Mesh].owner, i, c.assignedIp.value,
                         b);
  }

  // ----------------------------------------------- from the host to the interface

  ghost predicate ListedBy(peers: seq<PeerPlan>, p: Prefix) {
    exists i :: 0 <= i < |peers| && p in peers[i].allowedIPs
  }

  /** The main table after the mesh is raised without failures: what was there but is not lost, what is listed,
      and the mesh-wide routes; a route that was there leads where it led. */
  lemma MainAfterRaising(net: Net, plan: Plan, q: Prefix)
    requires Sound(net)
    ensures var main := MeshRaised(net, plan, {}).0.main;
      && (q in main <==>
            (q in net.main && q !in RoutesInterrupted(net, plan, {})) || ListedBy(plan.peers, q) || q in plan.routes)
      && (q in main ==> main[q] == if q in net.main then net.main[q] else Mesh)
  {
    MeshPassPutsInPlace(net, plan);
    var links := LinkReady(net.links, plan, {}).0;
    assert LinkReady(net.links, plan, {}).1;
    var t := Tunnel(links[Mesh], net.main);
    assert Consistent(t.link);
    var mid := PeersReconciled(t, Mesh, plan.peers, {}).main;
    RoutesSurviveRemovals(t, Mesh, plan.peers, plan.routes, {});
    RoutesEnsuredMeaning(mid, Mesh, plan.routes, {}, q);
    if q in net.main {
      RoutesLostExactly(t, Mesh, plan.peers, {}, q);
      RoutesAfterLoop(t, Mesh, plan.peers, {}, q);
    } else if q in mid {
      NewRoutesAreListed(t, Mesh, plan.peers, {}, q);
    }
  }

  /** After an error-free pass the route of a planned prefix leads into the mesh exactly if it led nowhere else
      before: a foreign route of the same prefix is tolerated as "File exists". */
  lemma OwnRouteExactly(h: Host, d: Docs, plan: Plan, p: Prefix)
    requires Sound(h.net) && PlanFor(d) == Some(plan) && ListedBy(plan.peers, p)
    ensures var main := HostAfter(h, d, {}).0.net.main;
      && (p in main && main[p] == Mesh <==> p !in h.net.main || h.net.main[p] == Mesh)
      && (p in h.net.main && !h.net.main[p].Exit? ==> p in main && main[p] == h.net.main[p])
  {
    ExitsAreTheChosen(d.clients, d.sites, plan.siteId);
    PassKeepsRaised(h, plan, PlanOfExits(d.clients, d.sites, plan.siteId));
    MainAfterRaising(h.net, plan, p);
    var raised := MeshRaised(h.net, plan, {}).0;
    NatPassRemembers(h.(net := raised), plan, WanOf(raised.main, {}));
  }

  /** The range is claimed by the host itself after an error-free pass. */
  ghost predicate ClaimedAfter(h: Host, plan: Plan, p: Prefix) {
    && (p in h.net.local || exists m :: m in plan.netmaps && p == m.shadow)
    && !exists x :: x in h.tracked && x !in plan.netmaps && p == x.shadow
  }

  lemma LocalAfterPass(h: Host, d: Docs, plan: Plan, p: Prefix)
    requires Sound(h.net) && PlanFor(d) == Some(plan)
    ensures p in HostAfter(h, d, {}).0.net.local <==> ClaimedAfter(h, plan, p)
  {
    var exits := PlanOfExits(d.clients, d.sites, plan.siteId);
    ExitsAreTheChosen(d.clients, d.sites, plan.siteId);
    PassKeepsRaised(h, plan, exits);
    MeshPassPutsInPlace(h.net, plan);
    var raised := MeshRaised(h.net, plan, {}).0;
    var wan := WanOf(raised.main, {});
    var fw := ForwardingApplied(h.fw, wan, [Mesh], {}).0;
    var s := Lans(Natting(fw, h.net.local), h.tracked);
    PassLocal(s, Mesh, plan.netmaps, p, Mapping(p, p));
    ExitsLeaveMesh(PlanApplied(h, plan, {}).0.net, exits);
    assert forall x :: Stale(s, plan.netmaps, x) <==> x in h.tracked && x !in plan.netmaps;
  }

  /** The host sends a packet to `a` into the mesh interface: it does not take the address for its own, and the
      longest route of the main table leads there. */
  ghost predicate SentIntoMesh(net: Net, a: Addr) {
    && (forall p :: p in net.local ==> !Contains(p, a))
    && exists p :: p in net.main && net.main[p] == Mesh && Contains(p, a) &&
         forall q :: q in net.main && Contains(q, a) ==> q.len <= p.len
  }

  lemma LongestIsOwn(net: Net, a: Addr)
    requires Ipv4.Host(a) in net.main
    ensures SentIntoMesh(net, a) <==>
              net.main[Ipv4.Host(a)] == Mesh && forall p :: p in net.local ==> !Contains(p, a)
  {
    assert Contains(Ipv4.Host(a), a) by {
      Sizes();
    }
    assert forall p: Prefix :: Contains(p, a) && p.len >= 32 ==> p == Ipv4.Host(a) by {
      Sizes();
    }
  }

  /** Whether a device gets its packets, read off the host before the pass: no other route has its very address,
      and no range the host claims for itself contains it. */
  lemma DevicesAreReachedExactly(h: Host, d: Docs, plan: Plan, c: Client)
    requires Sound(h.net) && PlanFor(d) == Some(plan)
    requires ShapedDocs(plan.siteId, d.peers.value, d.clients) && Distinct(plan.peers)
    requires c in d.clients && Connectable(c)
    requires var p := Ipv4.Host(c.assignedIp.value); p in h.net.main ==> !h.net.main[p].Exit?
    ensures var net, a := HostAfter(h, d, {}).0.net, c.assignedIp.value;
      Mesh in net.links &&
      (SentIntoMesh(net, a) && RoutesTo(net.links[Mesh].owner, a, c.publicKey) <==>
        && (Ipv4.Host(a) in h.net.main ==> h.net.main[Ipv4.Host(a)] == Mesh)
        && forall p :: ClaimedAfter(h, plan, p) ==> !Contains(p, a))
  {
    var a, net := c.assignedIp.value, HostAfter(h, d, {}).0.net;
    DevicesGetTheirOwnPackets(h, d, plan, c, a);
    PlansComeFromRows(d.peers.value, d.clients, SiteRow(d.sites, d.peers.value.localSiteId), plan, ClientPlan(c));
    var i :| 0 <= i < |plan.peers| && plan.peers[i] == ClientPlan(c);
    assert Ipv4.Host(a) in plan.peers[i].allowedIPs;
    OwnRouteExactly(h, d, plan, Ipv4.Host(a));
    assert Ipv4.Host(a) in net.main;
    LongestIsOwn(net, a);
    forall p ensures p in net.local <==> ClaimedAfter(h, plan, p) {
      LocalAfterPass(h, d, plan, p);
    }
  }

  // ------------------------------------------- LANs, the internet and exits, from the documents

  /** After two error-free passes, from any state of the host: a packet from the mesh to 10.s.168.n is sent on to the
      LAN that the first roster row of this very site names, unless a rule that is not the gateway's gets hold
      of it; and likewise for 10.s.172.n. */
  lemma LanHostsAreReached(h: Host, d: Docs, plan: Plan, i: nat, slot: Slot, lan: Prefix, n: nat, p: Packet,
                           passing: set<string>)
    requires Sound(h.net) && PlanFor(d) == Some(plan)
    requires FirstRow(d.sites, i, d.peers.value.localSiteId) && n < 256
    requires Some(lan) == if slot == S168 then d.sites[i].lan168 else d.sites[i].lan172
    requires p.inDev == Mesh
    requires p.dst == Octets(10, d.peers.value.localSiteId, if slot == S168 then 168 else 172, n)
    ensures var pre := HostAfter(HostAfter(h, d, {}).0, d, {}).0.fw.pre;
      && FirstMatch(pre, p, passing).Some?
      && (OnlyDecidedBy(pre, p, passing, Netmap(lan)) ==> FirstMatch(pre, p, passing).value.target == Netmap(lan))
  {
    var twice := HostAfter(HostAfter(h, d, {}).0, d, {}).0;
    var m := Mapping(ShadowCidr(plan.siteId, slot), lan);
    TwoPassesSettle(h, d);
    SiteRowMeaning(d.sites, d.peers.value.localSiteId);
    PlanOutcome(d.peers.value, d.clients, SiteRow(d.sites, d.peers.value.localSiteId));
    NetmapsInFields(d.peers.value, d.clients, SiteRow(d.sites, d.peers.value.localSiteId), plan, m);
    RangesInOctets(plan.siteId, slot, 10, plan.siteId, if slot == S168 then 168 else 172, n);
    assert Complete(Natting(twice.fw, twice.net.local), Mesh, m);
    MeshReachesLan(Natting(twice.fw, twice.net.local), Mesh, m, p, passing);
  }

  /** After one error-free pass on a host with an uplink, of the forwarded packets its chain did not decide before,
      exactly these are accepted: from the mesh to the uplink, and answers back. */
  lemma InternetIsReachedExactly(h: Host, d: Docs, plan: Plan, p: Packet, passing: set<string>)
    requires Sound(h.net) && PlanFor(d) == Some(plan)
    requires Prefix(0, 0) in h.net.main && h.net.main[Prefix(0, 0)] != Mesh
    requires FirstMatch(h.fw.forward, p, passing) == None
    ensures var wan := h.net.main[Prefix(0, 0)];
            var first := FirstMatch(HostAfter(h, d, {}).0.fw.forward, p, passing);
      && (first.Some? <==>
            (p.inDev == Mesh && p.outDev == wan) || (p.inDev == wan && p.outDev == Mesh && p.established))
      && (first.Some? ==> first.value.target == Accept)
  {
    ForwardAfterPass(h, d, plan);
    ForwardingPermitsExactly(h.fw, h.net.main[Prefix(0, 0)], [Mesh], p, passing);
  }

  lemma ForwardAfterPass(h: Host, d: Docs, plan: Plan)
    requires Sound(h.net) && PlanFor(d) == Some(plan)
    requires Prefix(0, 0) in h.net.main && h.net.main[Prefix(0, 0)] != Mesh
    ensures HostAfter(h, d, {}).0.fw.forward
         == ForwardingApplied(h.fw, Some(h.net.main[Prefix(0, 0)]), [Mesh], {}).0.forward
  {
    var wan := h.net.main[Prefix(0, 0)];
    MeshPassPutsInPlace(h.net, plan);
    MainAfterRaising(h.net, plan, Prefix(0, 0));
    DefaultIsNotLost(h.net, plan);
    var raised := MeshRaised(h.net, plan, {}).0;
    assert WanOf(raised.main, {}) == Some(wan);
    NatPassRemembers(h.(net := raised), plan, Some(wan));
    PassOfDocs(h, d, plan);
    var fw := ForwardingApplied(h.fw, Some(wan), [Mesh], {}).0;
    PassLeavesForward(Lans(Natting(fw, h.net.local), h.tracked), Mesh, plan.netmaps, {});
  }

  lemma DefaultIsNotLost(net: Net, plan: Plan)
    requires Sound(net) && Prefix(0, 0) in net.main && net.main[Prefix(0, 0)] != Mesh
    ensures Prefix(0, 0) !in RoutesInterrupted(net, plan, {})
  {
    RoutesInterruptedExactly(net, plan, {}, Prefix(0, 0));
  }

  /** The mesh pass leaves policy rules and exit tables to the exits, which are planned for this very site. */
  lemma NetAfterPass(h: Host, d: Docs, plan: Plan)
    requires Sound(h.net) && PlanFor(d) == Some(plan)
    ensures var mid := PlanApplied(h, plan, {}).0.net;
      && mid.rules == h.net.rules && mid.tables == h.net.tables
      && HostAfter(h, d, {}).0.net
         == ExitsApplied(mid, PlanOfExits(d.clients, d.sites, d.peers.value.localSiteId), {})
  {
    MeshPassPutsInPlace(h.net, plan);
    var raised := MeshRaised(h.net, plan, {}).0;
    NatPassRemembers(h.(net := raised), plan, WanOf(raised.main, {}));
    PlanOutcome(d.peers.value, d.clients, SiteRow(d.sites, d.peers.value.localSiteId));
    PassOfDocs(h, d, plan);
  }

  /** After an error-free pass, the internet traffic of a device that asks for another site with a key and an endpoint
      leaves through that site's interface, to the gateway with the key of the site's last roster row, unless a
      rule with a priority below 3000 takes it elsewhere. */
  lemma DevicesExitAsAsked(h: Host, d: Docs, plan: Plan, c: Client, a: Addr, n: nat, i: int)
    requires Sound(h.net) && PlanFor(d) == Some(plan) && AskAlike(d.clients, a, c)
    requires TablesOwned(h.net.tables) && Sorted(h.net.rules) && RosterIds(d.sites)
    requires AsksFor(c, d.sites, d.peers.value.localSiteId, n, i)
    requires var net := HostAfter(h, d, {}).0.net;
             forall r :: r in h.net.rules && r.priority < 3000 ==> !Hits(net, r, a)
    ensures var net := HostAfter(h, d, {}).0.net;
      && ExitOf(net, a) == Some(Exit(n))
      && Exit(n) in net.links && Prefix(0, 0) in net.links[Exit(n)].owner
      && net.links[Exit(n)].owner[Prefix(0, 0)] == d.sites[i].gatewayPublicKey
  {
    NetAfterPass(h, d, plan);
    ExitAsAsked(PlanApplied(h, plan, {}).0.net, d.clients, d.sites, d.peers.value.localSiteId, {}, c, a, n, i);
  }

  /** The internet traffic of any other device goes as the host's rules with priorities below 3000 and above 3254
      have it, which are those of before. */
  lemma OtherDevicesGoAsTheHost(h: Host, d: Docs, plan: Plan, c: Client, a: Addr)
    requires Sound(h.net) && PlanFor(d) == Some(plan) && AskAlike(d.clients, a, c)
    requires TablesOwned(h.net.tables) && Sorted(h.net.rules) && RosterIds(d.sites)
    requires forall n: nat, i :: !AsksFor(c, d.sites, d.peers.value.localSiteId, n, i)
    ensures var net := HostAfter(h, d, {}).0.net;
            ExitOf(net, a) == Lookup(net, Outside(h.net.rules), a)
  {
    NetAfterPass(h, d, plan);
    GoesAsTheHost(PlanApplied(h, plan, {}).0.net, d.clients, d.sites, d.peers.value.localSiteId, {}, c, a);
  }

  // ------------------------------------------------------ no blip, for a packet

  /** The device is steered: its exit is up, its rule installed, no other managed rule takes it elsewhere, and
      rules before the range that match it name a table without a default route, such as the local one. */
  ghost predicate SteeredNow(net: Net, a: Addr, site: Site) {
    && Sorted(net.rules) && IsUp(Exits(net.links, net.tables), SpecOf(site))
    && HasPair(ManagedOf(net.rules), RuleAt(a, site.siteId))
    && (forall r :: r in net.rules && Managed(r) && Contains(r.from, a) ==> r.table == TableFor(site.siteId))
    && (forall r :: r in net.rules && r.priority < RULE_PRIORITY_BASE && Contains(r.from, a) ==>
          r.table < TABLE_BASE && r.table != MAIN_TABLE && r.table !in net.tables)
  }

  /** A device that is steered to its exit and keeps it leaves through that exit, to that site's gateway, at
      every moment of a pass, whichever commands fail in it. */
  lemma SteeredThroughout(h: Host, s: Net, d: Docs, f: set<Cmd>, plan: Plan, c: Client, a: Addr, site: Site)
    requires Moment(h, s, d, f) && PlanFor(d) == Some(plan)
    requires RosterIds(d.sites) && OwnAddress(d.clients, d.sites, plan.siteId, a, Some(site))
    requires c in d.clients && c.assignedIp == Some(a) && SiteOf(c, d.sites, plan.siteId) == Some(site)
    requires SteeredNow(h.net, a, site)
    ensures ExitOf(s, a) == Some(Exit(site.siteId)) && IsUp(Exits(s.links, s.tables), SpecOf(site))
  {
    var planned := RulesOf(d.clients, d.sites, plan.siteId);
    var r := OwnRuleStays(h, s, d, f, plan, c, a, site);
    PlannedAreManaged(d.clients, d.sites, plan.siteId);
    LookupBefore(s, s.rules, a, r);
    var w :| w in s.rules && Hits(s, w, a) && ExitOf(s, a) == RouteOf(s, w.table) && w.priority <= r.priority;
    if w in planned {
      PlannedRuleIsOwn(d.clients, d.sites, plan.siteId, a, Some(site), w);
    } else if !Managed(w) {
      assert false;
    }
  }

  lemma OwnRuleStays(h: Host, s: Net, d: Docs, f: set<Cmd>, plan: Plan, c: Client, a: Addr, site: Site)
      returns (r: IpRule)
    requires Moment(h, s, d, f) && PlanFor(d) == Some(plan) && RosterIds(d.sites)
    requires c in d.clients && c.assignedIp == Some(a) && SiteOf(c, d.sites, plan.siteId) == Some(site)
    requires SteeredNow(h.net, a, site)
    ensures r in s.rules && Managed(r) && Hits(s, r, a)
    ensures Sorted(s.rules) && IsUp(Exits(s.links, s.tables), SpecOf(site))
  {
    ExitsAreTheChosen(d.clients, d.sites, plan.siteId);
    assert ChosenAs(c, d.sites, plan.siteId, SpecOf(site));
    var own := RuleAt(a, site.siteId);
    RulesFollowChoices(d.clients, d.sites, plan.siteId, own, Unusable(None, 0, NoSuchSite));
    assert SteeredTo(c, d.sites, plan.siteId, own);
    r :| r in ManagedOf(h.net.rules) && SamePair(r, own);
    ManagedMembers(h.net.rules, r);
    assert SamePair(own, r);
    assert Contains(r.from, a) by {
      Sizes();
    }
  }
}
