// Applying a plan to the host (applyPlan in services/mesh_state.js).
module MeshState {
  import opened Wrappers
  import opened Ipv4
  import opened MeshAddressing
  import opened Kernel
  import opened WgIface
  import opened NetRouter
  import opened MeshPlan
  import opened PeerReconcile
  import opened NetmapReconcile

  /** Everything a pass reads and changes. */
  datatype Host = Host(net: Net, fw: Firewall, tracked: seq<Mapping>)

  datatype Failure = PeerFailed(name: Label) | ForwardingFailed | NetmapFailed(m: Mapping)

  /** `peers` is the count the pass reports. */
  datatype Applied = Applied(peers: int, failed: seq<Failure>, wan: Option<Dev>)

  // ----------------------------------------------------------- specifications

  /** The interface itself and its addresses. */
  function LinkReady(links: map<Dev, Link>, plan: Plan, f: set<Cmd>): (map<Dev, Link>, bool) {
    var (made, ok) := InterfaceEnsured(links, Mesh, f);
    if !ok || WgKey(Mesh) in f then (made, false)
    else
      var (addrs, set_) := AddressesAfter(made[Mesh].addrs, Mesh, plan.addresses, f);
      (made[Mesh := WithAddrs(made[Mesh], addrs)], set_)
  }

  /** Interface, addresses, peers and routes; `false` stands for an exception on the way. */
  function MeshRaised(net: Net, plan: Plan, f: set<Cmd>): (Net, bool) {
    var (links, ready) := LinkReady(net.links, plan, f);
    if !ready then (net.(links := links), false)
    else
      var t := PeersReconciled(Tunnel(links[Mesh], net.main), Mesh, plan.peers, f);
      var (main, ok) := RoutesEnsured(t.main, Mesh, plan.routes, f);
      (net.(links := links[Mesh := t.link], main := main), ok)
  }

  /** The device of the default route, if it can be seen. */
  function WanOf(main: map<Prefix, Dev>, f: set<Cmd>): Option<Dev> {
    if DefaultShow in f || DEFAULT_ROUTE !in main then None else Some(main[DEFAULT_ROUTE])
  }

  function PeerFailures(names: seq<Label>): seq<Failure> {
    seq(|names|, i requires 0 <= i < |names| => PeerFailed(names[i]))
  }

  function NetmapFailures(maps: seq<Mapping>): seq<Failure> {
    seq(|maps|, i requires 0 <= i < |maps| => NetmapFailed(maps[i]))
  }

  /** Forwarding and LAN mappings; `false` stands for the exception when Redis cannot be read. */
  function NatApplied(h: Host, plan: Plan, wan: Option<Dev>, f: set<Cmd>): (Host, seq<Failure>, bool) {
    var (fw, forwarded) := ForwardingApplied(h.fw, wan, [Mesh], f);
    var (lans, bad, listed) := NetmapPass(Lans(Natting(fw, h.net.local), h.tracked), Mesh, plan.netmaps, f);
    (Host(h.net.(local := lans.base.local), lans.base.fw, lans.tracked),
     (if forwarded then [] else [ForwardingFailed]) + NetmapFailures(bad), listed)
  }

  function PlanApplied(h: Host, plan: Plan, f: set<Cmd>): (Host, Result<Applied>) {
    var (net, ok) := MeshRaised(h.net, plan, f);
    if !ok then (h.(net := net), Threw("interface"))
    else
      var wan := WanOf(net.main, f);
      var (after, bad, listed) := NatApplied(h.(net := net), plan, wan, f);
      if !listed then (after, Threw("redis"))
      else
        var failed := PeerFailures(PeersFailing(Mesh, plan.peers, [], f)) + bad;
        (after, Ok(Applied(|plan.peers| - |failed|, failed, wan)))
  }

  // ------------------------------------------------------------------ methods

  /** What a pass may take away: routes that go with stale peers, local ranges and rules of mappings no
      longer wanted. */
  datatype Losses = Losses(routes: set<Prefix>, shadows: set<Prefix>, entries: set<Entry>)

  function RoutesInterrupted(net: Net, plan: Plan, f: set<Cmd>): set<Prefix> {
    var (links, ready) := LinkReady(net.links, plan, f);
    if !ready then {} else LostRoutes(Tunnel(links[Mesh], net.main), Mesh, plan.peers, f)
  }

  function LossesOf(h: Host, plan: Plan, f: set<Cmd>): Losses {
    Losses(RoutesInterrupted(h.net, plan, f), StaleShadows(h.tracked, plan.netmaps),
           StaleEntries(Mesh, h.tracked, plan.netmaps))
  }

  /** A moment of the pass, for what was in place before: addresses of the mesh interface that stay,
      undisputed prefixes of planned peers, all routes and local ranges but the losses. Other interfaces,
      the exits' tables and the policy rules are untouched. */
  ghost predicate MeshSteady(was: Net, s: Net, plan: Plan, l: Losses, f: set<Cmd>) {
    && s.rules == was.rules && s.tables == was.tables && was.local - l.shadows <= s.local
    && (forall p :: p in was.main && p !in l.routes ==> p in s.main && s.main[p] == was.main[p])
    && (forall d :: d != Mesh ==> (d in was.links <==> d in s.links) && (d in was.links ==> s.links[d] == was.links[d]))
    && (Mesh in was.links ==> Mesh in s.links && LinkSteady(was.links[Mesh], s.links[Mesh], plan, f))
  }

  ghost predicate LinkSteady(was: Link, s: Link, plan: Plan, f: set<Cmd>) {
    && KeepsHeld(Mesh, plan.peers, f, was, s)
    && forall a :: a in was.addrs && a in plan.addresses ==> a in s.addrs
  }

  /** The first steps, until the interface has its addresses. */
  method ReadyLink(k: Kernel, plan: Plan, ghost l: Losses) returns (ok: bool)
    modifies k`links, k`states
    ensures (k.links, ok) == LinkReady(old(k.links), plan, k.faults)
    ensures ok ==> Mesh in k.links
    ensures old(k.states) <= k.states
    ensures MeshSteady(old(k.Now()), k.Now(), plan, l, k.faults)
    ensures forall i :: |old(k.states)| <= i < |k.states| ==> MeshSteady(old(k.Now()), k.states[i], plan, l, k.faults)
  {
    ok := EnsureInterface(k, Mesh);
    if !ok {
      return;
    }
    ok := k.Show(WgKey(Mesh));
    if !ok {
      return;
    }
    ok := SetAddresses(k, Mesh, plan.addresses);
  }

  lemma SteadyOnwards(was: Net, mid: Net, s: Net, plan: Plan, l: Losses, f: set<Cmd>)
    requires MeshSteady(was, mid, plan, l, f) && MeshSteady(mid, s, plan, l, f)
    ensures MeshSteady(was, s, plan, l, f)
  {
  }

  lemma UninterruptedIsSteady(was: Net, s: Net, plan: Plan, f: set<Cmd>, l: Losses)
    requires Mesh in was.links && Uninterrupted(Mesh, plan.peers, f, was, s)
    requires LostRoutes(Tunnel(was.links[Mesh], was.main), Mesh, plan.peers, f) <= l.routes
    ensures MeshSteady(was, s, plan, l, f)
  {
  }

  lemma RoutesKeptIsSteady(was: Net, s: Net, plan: Plan, l: Losses, f: set<Cmd>)
    requires RoutesKept(was, s, {}) && s.links == was.links
    ensures MeshSteady(was, s, plan, l, f)
  {
  }

  lemma EnsuredIsSteady(was: Net, s: Net, plan: Plan, f: set<Cmd>, l: Losses)
    requires s == was.(main := RoutesEnsured(was.main, Mesh, plan.routes, f).0)
    ensures MeshSteady(was, s, plan, l, f)
  {
    forall p | p in was.main ensures p in s.main && s.main[p] == was.main[p] {
      RoutesEnsuredMeaning(was.main, Mesh, plan.routes, f, p);
    }
  }

  lemma StillUnrouted(before: seq<Net>, from: seq<Net>, states: seq<Net>, more: seq<Net>, p: Prefix)
    requires before <= from <= states <= more && UnroutedSince(from, states, p)
    ensures UnroutedSince(before, more, p)
  {
    var i :| |from| <= i < |states| && p !in states[i].main;
    assert more[i] == states[i];
  }

  /** Peers and routes, on an interface that is there. */
  method RaisePeers(k: Kernel, plan: Plan, ghost l: Losses) returns (failed: seq<Label>, ok: bool)
    requires Mesh in k.links
    requires l.routes == LostRoutes(Tunnel(k.links[Mesh], k.main), Mesh, plan.peers, k.faults)
    modifies k`links, k`main, k`states
    ensures var t := PeersReconciled(Tunnel(old(k.links)[Mesh], old(k.main)), Mesh, plan.peers, k.faults);
      && k.links == old(k.links)[Mesh := t.link]
      && (k.main, ok) == RoutesEnsured(t.main, Mesh, plan.routes, k.faults)
    ensures failed == PeersFailing(Mesh, plan.peers, [], k.faults)
    ensures old(k.states) <= k.states
    ensures MeshSteady(old(k.Now()), k.Now(), plan, l, k.faults)
    ensures forall i :: |old(k.states)| <= i < |k.states| ==> MeshSteady(old(k.Now()), k.states[i], plan, l, k.faults)
    ensures forall p :: p in old(k.main) && p in l.routes ==> UnroutedSince(old(k.states), k.states, p)
  {
    ghost var now0 := k.Now();
    failed := ReconcilePeers(k, Mesh, plan.peers);
    ghost var now1, states1 := k.Now(), k.states;
    ok := EnsureRoutes(k, Mesh, plan.routes);
    forall p | p in now0.main && p in l.routes ensures UnroutedSince(old(k.states), k.states, p) {
      StillUnrouted(old(k.states), old(k.states), states1, k.states, p);
    }
    UninterruptedIsSteady(now0, now1, plan, k.faults, l);
    EnsuredIsSteady(now1, k.Now(), plan, k.faults, l);
    SteadyOnwards(now0, now1, k.Now(), plan, l, k.faults);
    forall i | |old(k.states)| <= i < |k.states| ensures MeshSteady(now0, k.states[i], plan, l, k.faults) {
      if i < |states1| {
        UninterruptedIsSteady(now0, k.states[i], plan, k.faults, l);
      } else {
        RoutesKeptIsSteady(now1, k.states[i], plan, l, k.faults);
        SteadyOnwards(now0, now1, k.states[i], plan, l, k.faults);
      }
    }
  }

  /** Interface, addresses, peers and routes. */
  method RaiseMesh(k: Kernel, plan: Plan, ghost l: Losses) returns (failed: seq<Label>, ok: bool)
    requires l.routes == RoutesInterrupted(k.Now(), plan, k.faults)
    modifies k`links, k`main, k`states
    ensures (k.Now(), ok) == MeshRaised(old(k.Now()), plan, k.faults)
    ensures ok ==> failed == PeersFailing(Mesh, plan.peers, [], k.faults)
    ensures old(k.states) <= k.states
    ensures forall i :: |old(k.states)| <= i < |k.states| ==> MeshSteady(old(k.Now()), k.states[i], plan, l, k.faults)
    ensures MeshSteady(old(k.Now()), k.Now(), plan, l, k.faults)
    ensures forall p :: p in old(k.main) && p in l.routes ==> UnroutedSince(old(k.states), k.states, p)
  {
    ghost var now0 := k.Now();
    ok := ReadyLink(k, plan, l);
    if !ok {
      failed := [];
      return;
    }
    ghost var now1, states1 := k.Now(), k.states;
    failed, ok := RaisePeers(k, plan, l);
    forall p | p in now0.main && p in l.routes ensures UnroutedSince(old(k.states), k.states, p) {
      StillUnrouted(old(k.states), states1, k.states, k.states, p);
    }
    SteadyOnwards(now0, now1, k.Now(), plan, l, k.faults);
    forall i | |states1| <= i < |k.states| ensures MeshSteady(now0, k.states[i], plan, l, k.faults) {
      SteadyOnwards(now0, now1, k.states[i], plan, l, k.faults);
    }
  }

  /** At every moment nothing is missing but the losses, neither of the network nor of the chains, and a route
      among them really is missing at some moment. */
  method ApplyPlan(k: Kernel, tracker: Tracker, plan: Plan) returns (r: Result<Applied>)
    modifies k`links, k`main, k`local, k`fw, k`chains, k`states, tracker
    ensures (Host(k.Now(), k.fw, tracker.tracked), r)
              == PlanApplied(Host(old(k.Now()), old(k.fw), old(tracker.tracked)), plan, k.faults)
    ensures old(k.states) <= k.states
    ensures var l := LossesOf(Host(old(k.Now()), old(k.fw), old(tracker.tracked)), plan, k.faults);
      && MeshSteady(old(k.Now()), k.Now(), plan, l, k.faults)
      && (forall i :: |old(k.states)| <= i < |k.states| ==> MeshSteady(old(k.Now()), k.states[i], plan, l, k.faults))
      && ChainsHeld(old(k.chains), k.chains, old(k.fw), k.fw, l.entries)
      && forall p :: p in old(k.main) && p in l.routes ==> UnroutedSince(old(k.states), k.states, p)
  {
    ghost var now0, l := k.Now(), LossesOf(Host(k.Now(), k.fw, tracker.tracked), plan, k.faults);
    var names, ok := RaiseMesh(k, plan, l);
    if !ok {
      return Threw("interface");
    }
    ghost var states1 := k.states;
    var wan := DetectWan(k);
    var bad, listed := ApplyNatSteadily(k, tracker, plan, wan, now0, l);
    forall p | p in now0.main && p in l.routes ensures UnroutedSince(old(k.states), k.states, p) {
      StillUnrouted(old(k.states), old(k.states), states1, k.states, p);
    }
    if !listed {
      return Threw("redis");
    }
    var failed := PeerFailures(names) + bad;
    r := Ok(Applied(|plan.peers| - |failed|, failed, wan));
  }

  /** The interface carrying the default route, if it can be seen. */
  method DetectWan(k: Kernel) returns (wan: Option<Dev>)
    ensures wan == WanOf(k.main, k.faults)
  {
    var shown := k.Show(DefaultShow);
    wan := if shown && DEFAULT_ROUTE in k.main then Some(k.main[DEFAULT_ROUTE]) else None;
  }

  /** The last part of a pass over the mesh, for what was there before the first. */
  method ApplyNatSteadily(k: Kernel, tracker: Tracker, plan: Plan, wan: Option<Dev>, ghost was: Net, ghost l: Losses)
      returns (failed: seq<Failure>, listed: bool)
    requires MeshSteady(was, k.Now(), plan, l, k.faults) && was.local <= k.local
    requires l.shadows == StaleShadows(tracker.tracked, plan.netmaps)
    modifies k`local, k`fw, k`chains, k`states, tracker
    ensures (Host(k.Now(), k.fw, tracker.tracked), failed, listed)
         == NatApplied(Host(old(k.Now()), old(k.fw), old(tracker.tracked)), plan, wan, k.faults)
    ensures old(k.states) <= k.states && MeshSteady(was, k.Now(), plan, l, k.faults)
    ensures forall i :: |old(k.states)| <= i < |k.states| ==> MeshSteady(was, k.states[i], plan, l, k.faults)
    ensures ChainsHeld(old(k.chains), k.chains, old(k.fw), k.fw, StaleEntries(Mesh, old(tracker.tracked), plan.netmaps))
  {
    ghost var now0, states0 := k.Now(), k.states;
    failed, listed := ApplyNat(k, tracker, plan, wan);
    LocalIsNoMatter(was, now0, k.Now(), plan, l, k.faults);
    forall i | |states0| <= i < |k.states| ensures MeshSteady(was, k.states[i], plan, l, k.faults) {
      LocalIsNoMatter(was, now0, k.states[i], plan, l, k.faults);
    }
  }

  lemma LocalIsNoMatter(was: Net, mid: Net, s: Net, plan: Plan, l: Losses, f: set<Cmd>)
    requires MeshSteady(was, mid, plan, l, f) && s.(local := mid.local) == mid
    requires was.local <= mid.local && mid.local - l.shadows <= s.local
    ensures MeshSteady(was, s, plan, l, f)
  {
  }

  method ApplyNat(k: Kernel, tracker: Tracker, plan: Plan, wan: Option<Dev>)
      returns (failed: seq<Failure>, listed: bool)
    modifies k`local, k`fw, k`chains, k`states, tracker
    ensures (Host(k.Now(), k.fw, tracker.tracked), failed, listed)
         == NatApplied(Host(old(k.Now()), old(k.fw), old(tracker.tracked)), plan, wan, k.faults)
    ensures LocalOnly(old(k.states), k.states, k.Now())
    ensures LocalHeld(old(k.states), k.states, old(k.local), k.local, StaleShadows(old(tracker.tracked), plan.netmaps))
    ensures ChainsHeld(old(k.chains), k.chains, old(k.fw), k.fw, StaleEntries(Mesh, old(tracker.tracked), plan.netmaps))
  {
    ghost var gone := StaleEntries(Mesh, tracker.tracked, plan.netmaps);
    var ok := ApplyForwarding(k, wan, [Mesh]);
    ghost var fw1, chains1 := k.fw, k.chains;
    failed := if ok then [] else [ForwardingFailed];
    var bad;
    bad, listed := ReconcileNetmaps(k, tracker, Mesh, plan.netmaps);
    HeldOnwards(old(k.chains), chains1, k.chains, old(k.fw), fw1, k.fw, gone, gone);
    failed := failed + NetmapFailures(bad);
  }

  /** Which route of before is missing at some moment of a pass, although it may be wanted: that of a prefix
      held by an unplanned peer and claimed by no accepted one. In particular, a mesh-wide route is missing
      between the removal of a replaced hub and the step that puts the route back. */
  lemma RoutesInterruptedExactly(net: Net, plan: Plan, f: set<Cmd>, p: Prefix)
    requires Mesh in net.links ==> Consistent(net.links[Mesh])
    requires p in net.main
    ensures p in RoutesInterrupted(net, plan, f) <==>
              && LinkReady(net.links, plan, f).1 && RouteGoes(Mesh, p, f) && net.main[p] == Mesh
              && Mesh in net.links && p in net.links[Mesh].owner
                 && !PeerReconcile.Planned(plan.peers, net.links[Mesh].owner[p])
              && forall i :: 0 <= i < |plan.peers| && Accepted(Mesh, plan.peers[i], f) ==>
                 p !in plan.peers[i].allowedIPs
  {
    var (links, ready) := LinkReady(net.links, plan, f);
    if ready {
      RoutesLostExactly(Tunnel(links[Mesh], net.main), Mesh, plan.peers, f, p);
    }
  }

  /** Such a hub: its key is no longer planned, it holds 10.0.0.0/8, and the route leads into the mesh. */
  lemma ReplacedHubInterruptsItsRoute(hub: Key, plan: Plan)
    requires !PeerReconcile.Planned(plan.peers, hub)
    requires forall i :: 0 <= i < |plan.peers| ==> SITES_RANGE !in plan.peers[i].allowedIPs
    ensures SITES_RANGE in RoutesInterrupted(NetWithHub(hub), plan, {})
  {
    ReadyWithoutFailures(NetWithHub(hub).links, plan);
    RoutesInterruptedExactly(NetWithHub(hub), plan, {}, SITES_RANGE);
  }

  function NetWithHub(hub: Key): Net {
    Net(map[Mesh := Link({}, {hub}, map[SITES_RANGE := hub])], map[SITES_RANGE := Mesh], map[], {}, [])
  }

  lemma ReadyWithoutFailures(links: map<Dev, Link>, plan: Plan)
    ensures LinkReady(links, plan, {}).1
  {
    var addrs := InterfaceEnsured(links, Mesh, {}).0[Mesh].addrs;
    AddsWithoutFailures(addrs, addrs, plan.addresses);
  }

  lemma {:induction false} AddsWithoutFailures(addrs: set<Cidr>, present: set<Cidr>, wanted: seq<Cidr>)
    ensures AddressesAdded(addrs, present, Mesh, wanted, {}).1
    decreases wanted
  {
    if wanted != [] {
      AddsWithoutFailures(if wanted[0] in present then addrs else addrs + {wanted[0]}, present, wanted[1..]);
    }
  }

  /** A route an accepted peer needs is not among them. */
  lemma NeededRoutesAreNotInterrupted(net: Net, plan: Plan, f: set<Cmd>, i: nat, p: Prefix)
    requires i < |plan.peers| && Accepted(Mesh, plan.peers[i], f) && p in plan.peers[i].allowedIPs
    ensures p !in RoutesInterrupted(net, plan, f)
  {
    var (links, ready) := LinkReady(net.links, plan, f);
    if ready {
      NeededRoutesAreNotLost(Tunnel(links[Mesh], net.main), Mesh, plan.peers, f, i, p);
    }
  }

  // ------------------------------------------------------- the reported number

  /** A failure of forwarding does not keep a mapping from being applied and remembered. */
  lemma MappingsComeRegardless(h: Host, plan: Plan, wan: Option<Dev>, f: set<Cmd>, m: Mapping)
    requires m in plan.netmaps && TrackAdd(m) !in f
    requires forall e :: e in MappingEntries(Mesh, m) ==> CanEnsure(h.fw, e, f)
    ensures m in NatApplied(h, plan, wan, f).0.tracked
  {
    var fw := ForwardingApplied(h.fw, wan, [Mesh], f).0;
    forall e ensures CanEnsure(fw, e, f) <==> CanEnsure(h.fw, e, f) {
      if wan.Some? {
        AllEnsuredExactly(h.fw, ForwardingEntries(wan.value, [Mesh]), f, e);
      }
    }
    var s := Lans(Natting(fw, h.net.local), h.tracked);
    var up := MappingsApplied(s, Mesh, plan.netmaps, [], f).0;
    RememberedExactly(s, Mesh, plan.netmaps, [], f, m);
    ForgottenExactly(up, Mesh, up.tracked, plan.netmaps, f, m);
  }

  function CountRoutable(peers: seq<PeerPlan>, f: set<Cmd>): nat {
    if peers == [] then 0
    else (if Routable(Mesh, peers[0], f) then 1 else 0) + CountRoutable(peers[1..], f)
  }

  lemma {:induction false} FailingOrRoutable(peers: seq<PeerPlan>, failed: seq<Label>, f: set<Cmd>)
    ensures |PeersFailing(Mesh, peers, failed, f)| + CountRoutable(peers, f) == |failed| + |peers|
    decreases peers
  {
    if peers != [] {
      FailingOrRoutable(peers[1..], if Routable(Mesh, peers[0], f) then failed else failed + [peers[0].name], f);
    }
  }

  /** Every rule a pass asks for is seen to be there, or can be added. */
  ghost predicate FirewallWillDo(h: Host, plan: Plan, wan: Option<Dev>, f: set<Cmd>) {
    && (wan.Some? ==> forall e :: e in ForwardingEntries(wan.value, [Mesh]) ==> CanEnsure(h.fw, e, f))
    && (forall m, e :: m in plan.netmaps && e in MappingEntries(Mesh, m) ==> CanEnsure(h.fw, e, f))
  }

  lemma NatFailsExactly(h: Host, plan: Plan, wan: Option<Dev>, f: set<Cmd>)
    ensures NatApplied(h, plan, wan, f).1 == [] <==> FirewallWillDo(h, plan, wan, f)
  {
    var (fw, forwarded) := ForwardingApplied(h.fw, wan, [Mesh], f);
    forall e ensures CanEnsure(fw, e, f) <==> CanEnsure(h.fw, e, f) {
      if wan.Some? {
        AllEnsuredExactly(h.fw, ForwardingEntries(wan.value, [Mesh]), f, e);
      }
    }
    if wan.Some? {
      AllEnsuredExactly(h.fw, ForwardingEntries(wan.value, [Mesh]), f, Entry(Forward, UplinkMasquerade(wan.value)));
    }
    AllAppliedExactly(Lans(Natting(fw, h.net.local), h.tracked), Mesh, plan.netmaps, [], f);
  }

  /** The number a pass reports as its peers is the number that came up exactly when every rule of
      forwarding and of the wanted mappings is seen in its chain before, or can be added: their failures are
      subtracted, too. */
  lemma ReportedPeersAreThoseUp(h: Host, plan: Plan, f: set<Cmd>)
    requires PlanApplied(h, plan, f).1.Ok?
    ensures var wan := WanOf(MeshRaised(h.net, plan, f).0.main, f);
      PlanApplied(h, plan, f).1.value.peers == CountRoutable(plan.peers, f) <==> FirewallWillDo(h, plan, wan, f)
  {
    var net := MeshRaised(h.net, plan, f).0;
    FailingOrRoutable(plan.peers, [], f);
    NatFailsExactly(h.(net := net), plan, WanOf(net.main, f), f);
  }

  /** A gateway without peers whose uplink MASQUERADE is refused reports minus one. */
  lemma RefusedMasqueradeMiscounts(s: SiteId, uplink: string)
    ensures var wan := Dev.Named(uplink);
            var h := Host(Net(map[], map[DEFAULT_ROUTE := wan], map[], {}, []), Firewall([], [], []), []);
            var plan := Plan(s, [], [], [], [], SiteCidr(s));
            var r := PlanApplied(h, plan, {IptAppend(Postrouting, UplinkMasquerade(wan))}).1;
      r.Ok? && r.value.peers == -1 && CountRoutable(plan.peers, {IptAppend(Postrouting, UplinkMasquerade(wan))}) == 0
  {
    var wan := Dev.Named(uplink);
    var f := {IptAppend(Postrouting, UplinkMasquerade(wan))};
    var h := Host(Net(map[], map[DEFAULT_ROUTE := wan], map[], {}, []), Firewall([], [], []), []);
    var plan := Plan(s, [], [], [], [], SiteCidr(s));
    var raised := MeshRaised(h.net, plan, f);
    assert raised.1 && raised.0.main == h.net.main;
    assert ForwardingEntries(wan, [Mesh])[0] == Entry(Postrouting, UplinkMasquerade(wan));
    assert !ForwardingApplied(h.fw, Some(wan), [Mesh], f).1;
  }

  // ------------------------------------------------- when the interface comes up

  lemma {:induction false} AddsExactly(addrs: set<Cidr>, present: set<Cidr>, wanted: seq<Cidr>, f: set<Cmd>)
    ensures AddressesAdded(addrs, present, Mesh, wanted, f).1 <==>
              forall a :: a in wanted ==> a in present || AddrAdd(Mesh, a) !in f
    decreases wanted
  {
    if wanted != [] {
      assert forall a :: a in wanted <==> a == wanted[0] || a in wanted[1..];
      if wanted[0] in present || AddrAdd(Mesh, wanted[0]) !in f {
        AddsExactly(if wanted[0] in present then addrs else addrs + {wanted[0]}, present, wanted[1..], f);
      }
    }
  }

  /** The pass gets past the interface exactly if the link is seen or can be created, takes its key, shows or can
      be given each wanted address, and can be brought up. */
  lemma ReadyExactly(links: map<Dev, Link>, plan: Plan, f: set<Cmd>)
    ensures LinkReady(links, plan, f).1 <==>
              && ((Mesh in links && DevShow(Mesh) !in f) || LinkAdd(Mesh) !in f)
              && WgKey(Mesh) !in f && LinkUp(Mesh) !in f
              && forall a :: a in plan.addresses ==>
                   (Mesh in links && AddrShow(Mesh) !in f && a in links[Mesh].addrs) || AddrAdd(Mesh, a) !in f
  {
    var (made, ok) := InterfaceEnsured(links, Mesh, f);
    if ok {
      var addrs := made[Mesh].addrs;
      AddsExactly(addrs, if AddrShow(Mesh) in f then {} else addrs, plan.addresses, f);
    }
  }
}
