// Two error-free passes settle the host, from any state; after that passes change nothing, and an outage
// of the directory goes unnoticed.
module Settling {
  import opened Wrappers
  import opened Ipv4
  import opened MeshAddressing
  import opened Kernel
  import opened WgIface
  import opened NetRouter
  import opened MeshPlan
  import opened PeerReconcile
  import opened NetmapReconcile
  import opened MeshState
  import opened ExitPlan
  import opened ExitRules
  import opened ExitRouter
  import opened ExitSettled
  import opened Reconcile

  // ------------------------------------------------------------ the interface

  function AddressSet(plan: Plan): set<Cidr> { set a | a in plan.addresses }

  ghost predicate MeshInPlace(net: Net, plan: Plan) {
    && Mesh in net.links && net.links[Mesh].addrs == AddressSet(plan)
    && PeersSettled(Tunnel(net.links[Mesh], net.main), Mesh, plan.peers)
    && forall p :: p in plan.routes ==> p in net.main
  }

  /** WireGuard's own consistency, on the mesh interface. */
  ghost predicate Sound(net: Net) {
    Mesh in net.links ==> Consistent(net.links[Mesh])
  }

  lemma {:induction false} AddedExactly(addrs: set<Cidr>, present: set<Cidr>, wanted: seq<Cidr>)
    requires present <= addrs
    ensures AddressesAdded(addrs, present, Mesh, wanted, {}) == (addrs + (set a | a in wanted), true)
    decreases wanted
  {
    if wanted == [] {
      assert addrs + (set a | a in wanted) == addrs;
    } else {
      var next := if wanted[0] in present then addrs else addrs + {wanted[0]};
      AddedExactly(next, present, wanted[1..]);
      assert addrs + (set a | a in wanted) == next + (set a | a in wanted[1..]);
    }
  }

  /** An error-free `setAddresses` leaves exactly the wanted addresses. */
  lemma AddressesExactly(addrs: set<Cidr>, wanted: seq<Cidr>)
    ensures AddressesAfter(addrs, Mesh, wanted, {}) == (set a | a in wanted, true)
  {
    AddedExactly(addrs, addrs, wanted);
    assert AddressesDropped(addrs + (set a | a in wanted), addrs, Mesh, wanted, {}) == set a | a in wanted;
  }

  lemma MeshPassPutsInPlace(net: Net, plan: Plan)
    requires Sound(net)
    ensures var (after, ok) := MeshRaised(net, plan, {});
      && ok && MeshInPlace(after, plan)
      && after == net.(links := after.links, main := after.main)
      && (forall d :: d != Mesh ==> (d in after.links <==> d in net.links))
  {
    var links := LinkReady(net.links, plan, {}).0;
    AddressesExactly(if Mesh in net.links then net.links[Mesh].addrs else {}, plan.addresses);
    var t := Tunnel(links[Mesh], net.main);
    assert Consistent(t.link);
    PassSettlesPeers(t, Mesh, plan.peers);
    var u := PeersReconciled(t, Mesh, plan.peers, {});
    AddrsAfterLoop(t, Mesh, plan.peers, {});
    var main := RoutesEnsured(u.main, Mesh, plan.routes, {}).0;
    AllRoutesEnsured(u.main, plan.routes);
    forall p ensures p in u.main ==> p in main {
      RoutesEnsuredMeaning(u.main, Mesh, plan.routes, {}, p);
    }
  }

  lemma {:induction false} AllRoutesEnsured(main: map<Prefix, Dev>, routes: seq<Prefix>)
    ensures RoutesEnsured(main, Mesh, routes, {}).1
    ensures forall p :: p in routes ==> p in RoutesEnsured(main, Mesh, routes, {}).0
    ensures (forall p :: p in routes ==> p in main) ==> RoutesEnsured(main, Mesh, routes, {}).0 == main
    decreases routes
  {
    if routes != [] {
      var next := RouteEnsured(main, routes[0], Mesh, {}).0;
      AllRoutesEnsured(next, routes[1..]);
      RoutesEnsuredMeaning(next, Mesh, routes[1..], {}, routes[0]);
    }
  }

  lemma {:induction false} AddsNothing(addrs: set<Cidr>, present: set<Cidr>, wanted: seq<Cidr>, f: set<Cmd>)
    requires forall a :: a in wanted ==> a in addrs
    ensures AddressesAdded(addrs, present, Mesh, wanted, f).0 == addrs
    decreases wanted
  {
    if wanted != [] {
      assert addrs + {wanted[0]} == addrs;
      AddsNothing(addrs, present, wanted[1..], f);
    }
  }

  lemma {:induction false} RoutesStay(main: map<Prefix, Dev>, routes: seq<Prefix>, f: set<Cmd>)
    requires forall p :: p in routes ==> p in main
    ensures RoutesEnsured(main, Mesh, routes, f).0 == main
    decreases routes
  {
    if routes != [] {
      RoutesStay(main, routes[1..], f);
    }
  }

  /** The plan's peers are in nobody's way, or none is refused. */
  ghost predicate PeersAtPeace(plan: Plan, f: set<Cmd>) {
    Distinct(plan.peers) || AllAccepted(Mesh, plan.peers, f)
  }

  /** Whichever commands fail, a pass then leaves interface, peers and routes as they are. */
  lemma MeshInPlaceStays(net: Net, plan: Plan, f: set<Cmd>)
    requires MeshInPlace(net, plan) && PeersAtPeace(plan, f)
    ensures MeshRaised(net, plan, f).0 == net
  {
    var l := net.links[Mesh];
    var present := if AddrShow(Mesh) in f then {} else l.addrs;
    AddsNothing(l.addrs, present, plan.addresses, f);
    assert AddressesDropped(l.addrs, present, Mesh, plan.addresses, f) == l.addrs;
    assert WithAddrs(l, l.addrs) == l && net.links[Mesh := l] == net.links;
    assert LinkReady(net.links, plan, f).0 == net.links;
    SettledPeersStay(Tunnel(l, net.main), Mesh, plan.peers, f);
    RoutesStay(net.main, plan.routes, f);
  }

  // ------------------------------------------------------- firewall and LANs

  ghost predicate NatInPlace(h: Host, plan: Plan, wan: Option<Dev>) {
    && (wan.Some? ==> forall e :: e in ForwardingEntries(wan.value, [Mesh]) ==> Present(h.fw, e))
    && NetmapsSettled(Lans(Natting(h.fw, h.net.local), h.tracked), Mesh, plan.netmaps)
  }

  /** Exactly the wanted mappings are remembered. */
  ghost predicate Remembers(tracked: seq<Mapping>, maps: seq<Mapping>) {
    forall m :: m in tracked <==> m in maps
  }

  lemma NatPassRemembers(h: Host, plan: Plan, wan: Option<Dev>)
    ensures var (after, failed, ok) := NatApplied(h, plan, wan, {});
            ok && Remembers(after.tracked, plan.netmaps) && after.net == h.net.(local := after.net.local)
  {
    var fw := ForwardingApplied(h.fw, wan, [Mesh], {}).0;
    PassTracks(Lans(Natting(fw, h.net.local), h.tracked), Mesh, plan.netmaps);
  }

  lemma NatPassPutsInPlace(h: Host, plan: Plan, wan: Option<Dev>)
    requires Remembers(h.tracked, plan.netmaps)
    ensures var (after, failed, ok) := NatApplied(h, plan, wan, {});
            ok && NatInPlace(after, plan, wan) && after.net == h.net.(local := after.net.local)
  {
    var fw := ForwardingApplied(h.fw, wan, [Mesh], {}).0;
    var s := Lans(Natting(fw, h.net.local), h.tracked);
    var up := MappingsApplied(s, Mesh, plan.netmaps, [], {}).0;
    var after := NatApplied(h, plan, wan, {}).0;
    forall m ensures m in up.tracked <==> m in plan.netmaps {
      AllAppliedLocal(s, Mesh, plan.netmaps, m.shadow, m);
    }
    WantedAreNotRemoved(up, Mesh, up.tracked, plan.netmaps, {});
    assert after == Host(h.net.(local := up.base.local), up.base.fw, up.tracked);
    forall m | m in plan.netmaps ensures Complete(up.base, Mesh, m) {
      AppliedIsComplete(s, plan.netmaps, m);
    }
    if wan.Some? {
      forall e | e in ForwardingEntries(wan.value, [Mesh]) ensures Present(up.base.fw, e) {
        AllEnsuredMeaning(h.fw, ForwardingEntries(wan.value, [Mesh]), {}, e);
        AppliedNeverDrops(s, Mesh, plan.netmaps, [], {}, e);
        CopiesOfMembers(ChainOf(fw, e.chain), e.rule);
        CopiesOfMembers(ChainOf(up.base.fw, e.chain), e.rule);
      }
    }
  }

  lemma AppliedIsComplete(s: Lans, maps: seq<Mapping>, m: Mapping)
    requires m in maps
    ensures Complete(MappingsApplied(s, Mesh, maps, [], {}).0.base, Mesh, m)
  {
    var after := MappingsApplied(s, Mesh, maps, [], {}).0;
    AllAppliedLocal(s, Mesh, maps, m.shadow, m);
    forall e | e in MappingEntries(Mesh, m) ensures Present(after.base.fw, e) {
      AllAppliedCopies(s, Mesh, maps, maps, e);
      CopiesOfMembers(ChainOf(after.base.fw, e.chain), e.rule);
      assert Wanted(Mesh, maps, e);
    }
  }

  /** No rule of forwarding or of a wanted mapping gets a further copy. */
  ghost predicate NothingStacked(plan: Plan, wan: Option<Dev>, f: set<Cmd>) {
    && (wan.Some? ==> forall e :: e in ForwardingEntries(wan.value, [Mesh]) ==> NotStacked(e, f))
    && (forall m, e :: m in plan.netmaps && e in MappingEntries(Mesh, m) ==> NotStacked(e, f))
  }

  /** Whichever commands fail, a pass then leaves chains, local ranges and what is remembered as they are. */
  lemma NatInPlaceStays(h: Host, plan: Plan, wan: Option<Dev>, f: set<Cmd>)
    requires NatInPlace(h, plan, wan) && NothingStacked(plan, wan, f)
    ensures NatApplied(h, plan, wan, f).0 == h
  {
    if wan.Some? {
      PresentStayExactly(h.fw, ForwardingEntries(wan.value, [Mesh]), f);
    }
    SettledNetmapsStayExactly(Lans(Natting(h.fw, h.net.local), h.tracked), Mesh, plan.netmaps, f);
  }

  // -------------------------------------------------------------- whole passes

  /** A pass without failing commands finds nothing to do. */
  ghost predicate Settled(h: Host, plan: Plan, exits: ExitPlan) {
    && MeshInPlace(h.net, plan)
    && NatInPlace(h, plan, WanOf(h.net.main, {}))
    && ExitsSettled(h.net, exits)
  }

  /** Both parts of a pass, when no command fails. */
  function Pass(h: Host, plan: Plan, exits: ExitPlan): Host {
    var mid := PlanApplied(h, plan, {}).0;
    mid.(net := ExitsApplied(mid.net, exits, {}))
  }

  lemma {:induction false} RaisedLinks(x: Exits, exits: seq<ExitSpec>, f: set<Cmd>, d: Dev)
    requires forall e :: e in exits ==> OwnParameters(e)
    ensures var y := ExitsRaised(x, exits, f);
      && (d in y.links ==> d in x.links || exists e :: e in exits && d == e.iface)
      && (!d.Exit? ==> (d in y.links <==> d in x.links) && (d in x.links ==> y.links[d] == x.links[d]))
    decreases exits
  {
    if exits != [] {
      assert OwnParameters(exits[0]);
      RaisedLinks(ExitRaised(x, exits[0], f).0, exits[1..], f, d);
    }
  }

  /** Exits leave the mesh interface alone, and the main table too once no exit is abandoned. */
  lemma ExitsLeaveMesh(net: Net, exits: ExitPlan)
    requires forall e :: e in exits.exits ==> OwnParameters(e)
    ensures var after := ExitsApplied(net, exits, {});
      && (Mesh in after.links <==> Mesh in net.links) && (Mesh in net.links ==> after.links[Mesh] == net.links[Mesh])
      && after.local == net.local
      && ((forall n: nat :: Exit(n) in net.links ==> HasExit(exits.exits, n)) ==> after.main == net.main)
  {
    var up := ExitsRaised(Exits(net.links, net.tables), exits.exits, {});
    var after := ExitsApplied(net, exits, {});
    RaisedLinks(Exits(net.links, net.tables), exits.exits, {}, Mesh);
    if forall n: nat :: Exit(n) in net.links ==> HasExit(exits.exits, n) {
      forall d | d in up.links && d.Exit? ensures HasExit(exits.exits, d.site) {
        RaisedLinks(Exits(net.links, net.tables), exits.exits, {}, d);
      }
      assert Abandoned(up.links, exits.exits, {}) == {};
      assert after.main == net.main;
    }
  }

  /** What the first pass already achieves, from any state. */
  lemma FirstPass(h: Host, plan: Plan, exits: ExitPlan)
    requires Sound(h.net) && DistinctExits(exits.exits) && forall e :: e in exits.exits ==> OwnParameters(e)
    ensures var once := Pass(h, plan, exits);
      && PlanApplied(h, plan, {}).1.Ok?
      && Sound(once.net) && ExitsSettled(once.net, exits) && Remembers(once.tracked, plan.netmaps)
  {
    var raised := MeshRaised(h.net, plan, {}).0;
    var wan := WanOf(raised.main, {});
    MeshPassPutsInPlace(h.net, plan);
    NatPassRemembers(h.(net := raised), plan, wan);
    var mid := NatApplied(h.(net := raised), plan, wan, {}).0;
    assert PlanApplied(h, plan, {}).0 == mid;
    PassSettlesExits(mid.net, exits);
    ExitsLeaveMesh(mid.net, exits);
    SettledIsSound(Tunnel(raised.links[Mesh], raised.main), plan.peers);
  }

  lemma SettledIsSound(t: Tunnel, peers: seq<PeerPlan>)
    requires PeersSettled(t, Mesh, peers)
    ensures Consistent(t.link)
  {
    forall p | p in t.link.owner ensures t.link.owner[p] in t.link.peers {
      assert Holds(t.link, p, t.link.owner[p]);
      var i :| LastClaim(Mesh, peers, {}, i, p) && peers[i].publicKey == t.link.owner[p];
    }
  }

  /** After a first pass, the second one leaves everything settled. */
  lemma SecondPass(h: Host, plan: Plan, exits: ExitPlan)
    requires Sound(h.net) && ExitsSettled(h.net, exits) && Remembers(h.tracked, plan.netmaps)
    requires DistinctExits(exits.exits) && forall e :: e in exits.exits ==> OwnParameters(e)
    ensures Settled(Pass(h, plan, exits), plan, exits)
  {
    var raised := MeshRaised(h.net, plan, {}).0;
    var wan := WanOf(raised.main, {});
    MeshPassPutsInPlace(h.net, plan);
    NatPassPutsInPlace(h.(net := raised), plan, wan);
    var mid := NatApplied(h.(net := raised), plan, wan, {}).0;
    assert PlanApplied(h, plan, {}).0 == mid;
    PassSettlesExits(mid.net, exits);
    ExitsLeaveMesh(mid.net, exits);
  }

  /** Failures that do a settled host no harm: a refused peer whose prefix another one lists, a check that fails
      before an append that works, and rules that cannot be read back can make a pass change something. */
  ghost predicate Harmless(h: Host, plan: Plan, exits: ExitPlan, f: set<Cmd>) {
    && PeersAtPeace(plan, f)
    && NothingStacked(plan, WanOf(h.net.main, {}), f)
    && RereadOrIdle(h.net.rules, exits.rules, f)
  }

  /** On a settled host a pass changes nothing, whichever harmless failures there are. */
  lemma SettledStays(h: Host, plan: Plan, exits: ExitPlan, f: set<Cmd>)
    requires Settled(h, plan, exits) && Harmless(h, plan, exits, f)
    ensures BothApplied(h, plan, exits, f).0 == h
  {
    MeshInPlaceStays(h.net, plan, f);
    assert h.(net := h.net) == h;
    NatInPlaceStays(h, plan, WanOf(h.net.main, f), f);
    SettledExitsStayExactly(h.net, exits, f);
  }

  ghost predicate SettledFor(h: Host, d: Docs) {
    match PlanFor(d)
    case None => true
    case Some(plan) => Settled(h, plan, PlanOfExits(d.clients, d.sites, plan.siteId))
  }

  ghost predicate HarmlessFor(h: Host, d: Docs, f: set<Cmd>) {
    match PlanFor(d)
    case None => true
    case Some(plan) => Harmless(h, plan, PlanOfExits(d.clients, d.sites, plan.siteId), f)
  }

  lemma SettledHostStays(h: Host, d: Docs, f: set<Cmd>)
    requires SettledFor(h, d) && HarmlessFor(h, d, f)
    ensures HostAfter(h, d, f).0 == h
  {
    if PlanFor(d).Some? {
      var plan := PlanFor(d).value;
      SettledStays(h, plan, PlanOfExits(d.clients, d.sites, plan.siteId), f);
    }
  }

  /** No failures are harmless. */
  lemma NoFailuresAreHarmless(h: Host, d: Docs)
    ensures HarmlessFor(h, d, {})
  {
  }

  lemma PassOfDocs(h: Host, d: Docs, plan: Plan)
    requires PlanFor(d) == Some(plan) && PlanApplied(h, plan, {}).1.Ok?
    ensures HostAfter(h, d, {}).0 == Pass(h, plan, PlanOfExits(d.clients, d.sites, plan.siteId))
  {
  }

  /** From any state of the host and for any documents, two passes without failing commands settle the host:
      a third changes nothing. */
  lemma TwoPassesSettle(h: Host, d: Docs)
    requires Sound(h.net)
    ensures var twice := HostAfter(HostAfter(h, d, {}).0, d, {}).0;
            SettledFor(twice, d) && HostAfter(twice, d, {}).0 == twice
  {
    if PlanFor(d).Some? {
      var plan := PlanFor(d).value;
      var exits := PlanOfExits(d.clients, d.sites, plan.siteId);
      ExitsAreTheChosen(d.clients, d.sites, plan.siteId);
      FirstPass(h, plan, exits);
      PassOfDocs(h, d, plan);
      var once := Pass(h, plan, exits);
      FirstPass(once, plan, exits);
      PassOfDocs(once, d, plan);
      SecondPass(once, plan, exits);
    }
    var twice := HostAfter(HostAfter(h, d, {}).0, d, {}).0;
    NoFailuresAreHarmless(twice, d);
    SettledHostStays(twice, d, {});
  }
}
