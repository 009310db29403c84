// A full cycle: read the three documents, plan, apply (reconcileMesh in services/mesh_state.js).
module Reconcile {
  import opened Wrappers
  import opened Ipv4
  import opened Kernel
  import opened MeshPlan
  import opened NetRouter
  import opened PeerReconcile
  import opened NetmapReconcile
  import opened MeshState
  import opened ExitPlan
  import opened ExitRules
  import opened ExitRouter
  import opened DirectoryClient

  /** The documents a pass goes by. `peers` is missing when there is neither an answer nor a cached copy;
      the others then count as empty. */
  datatype Docs = Docs(peers: Option<PeersDoc>, clients: seq<Client>, sites: seq<Site>)

  datatype Report = Untouched | NotJoined | Configured(applied: Applied, exitsFailed: seq<Dev>)

  /** The three attempts of one pass. */
  datatype Answers = Answers(peers: Attempt<PeersDoc>, clients: Attempt<seq<Client>>, sites: Attempt<seq<Site>>)

  /** The three entries of the Redis cache. */
  datatype Cache = Cache(peers: Option<Stamped<PeersDoc>>, clients: Option<Stamped<seq<Client>>>,
                         sites: Option<Stamped<seq<Site>>>)

  // ----------------------------------------------------------- specifications

  function OrEmpty<T>(o: Option<seq<T>>): seq<T> { if o.Some? then o.value else [] }

  /** This site's roster row: of rows with one id the first counts. */
  function SiteRow(sites: seq<Site>, id: int): Option<Site> {
    if sites == [] then None
    else if sites[0].siteId == id then Some(sites[0])
    else SiteRow(sites[1..], id)
  }

  /** Without a peers document the others are not even asked for. */
  function DocsOf(c: Cache, a: Answers): Docs {
    var peers := Served(c.peers, a.peers).value;
    if peers == None then Docs(None, [], [])
    else Docs(peers, OrEmpty(Served(c.clients, a.clients).value), OrEmpty(Served(c.sites, a.sites).value))
  }

  function CacheAfter(c: Cache, a: Answers): Cache {
    if Served(c.peers, a.peers).value == None then c.(peers := StoredAfter(c.peers, a.peers))
    else Cache(StoredAfter(c.peers, a.peers), StoredAfter(c.clients, a.clients), StoredAfter(c.sites, a.sites))
  }

  /** What a pass does to the host, given its documents. */
  function HostAfter(h: Host, d: Docs, f: set<Cmd>): (Host, Result<Report>) {
    if d.peers == None then (h, Ok(Untouched))
    else
      match PlanOf(d.peers.value, d.clients, SiteRow(d.sites, d.peers.value.localSiteId))
      case Threw(error) => (h, Threw(error))
      case Ok(NotReady) => (h, Ok(NotJoined))
      case Ok(Ready(plan)) => BothApplied(h, plan, PlanOfExits(d.clients, d.sites, plan.siteId), f)
  }

  /** The mesh, and then the exits unless that threw. */
  function BothApplied(h: Host, plan: Plan, exits: ExitPlan, f: set<Cmd>): (Host, Result<Report>) {
    var (mid, r) := PlanApplied(h, plan, f);
    match r
    case Threw(error) => (mid, Threw(error))
    case Ok(applied) =>
      (mid.(net := ExitsApplied(mid.net, exits, f)),
       Ok(Configured(applied, ExitsFailing(Exits(mid.net.links, mid.net.tables), exits.exits, [], f))))
  }

  // ------------------------------------------------------------------ methods

  /** `sites.find(...)`. */
  method FindSite(sites: seq<Site>, id: int) returns (site: Option<Site>)
    ensures site == SiteRow(sites, id)
  {
    for i := 0 to |sites|
      invariant SiteRow(sites[i..], id) == SiteRow(sites, id)
    {
      assert sites[i..][1..] == sites[i + 1..];
      if sites[i].siteId == id {
        return Some(sites[i]);
      }
    }
    site := None;
  }

  /** The plan these documents make, if any. */
  function PlanFor(d: Docs): Option<Plan> {
    if d.peers == None then None
    else
      var p := PlanOf(d.peers.value, d.clients, SiteRow(d.sites, d.peers.value.localSiteId));
      if p.Ok? && p.value.Ready? then Some(p.value.plan) else None
  }

  /** A moment of a whole pass. Of what was there before it, these are in place: mesh addresses that stay,
      undisputed prefixes of planned peers, routes that are not lost with stale peers nor lead into an exit,
      ranges of mappings still wanted, rules that are planned, and planned exits that were up. Rules in place
      were there or are planned, tables that are no exit's were there, and a link is missing only if it is an
      exit nobody uses and the rules are reconciled. Other interfaces are as before. */
  ghost predicate Unbroken(was: Net, s: Net, plan: Plan, exits: ExitPlan, l: Losses, f: set<Cmd>) {
    && (Mesh in was.links ==> Mesh in s.links && LinkSteady(was.links[Mesh], s.links[Mesh], plan, f))
    && (forall p :: p in was.main && p !in l.routes && !was.main[p].Exit? ==> p in s.main && s.main[p] == was.main[p])
    && was.local - l.shadows <= s.local
    && (forall r :: r in was.rules && HasPair(exits.rules, r) ==> r in s.rules)
    && (forall r :: r in s.rules ==> r in was.rules || r in exits.rules)
    && (Sorted(was.rules) ==> Sorted(s.rules))
    && (forall t :: t in s.tables && t < TABLE_BASE ==> t in was.tables && s.tables[t] == was.tables[t])
    && UpStaysUp(exits.exits, was, s)
    && (forall d :: d in was.links && d !in s.links ==>
          d.Exit? && !HasExit(exits.exits, d.site) && s.rules == RulesReconciled(was.rules, exits.rules, f))
    && (forall d: Dev :: d.Named? ==>
          (d in was.links <==> d in s.links) && (d in was.links ==> s.links[d] == was.links[d]))
  }

  /** What these documents let happen to a host at any moment; nothing, if they make no plan. */
  ghost predicate Moment(h: Host, s: Net, d: Docs, f: set<Cmd>) {
    match PlanFor(d)
    case None => s == h.net
    case Some(plan) => Unbroken(h.net, s, plan, PlanOfExits(d.clients, d.sites, plan.siteId), LossesOf(h, plan, f), f)
  }

  /** The rules a pass may take out of the chains: those of mappings that are remembered and not wanted. */
  function EntriesLost(h: Host, d: Docs): set<Entry> {
    match PlanFor(d)
    case None => {}
    case Some(plan) => StaleEntries(Mesh, h.tracked, plan.netmaps)
  }

  lemma MeshMomentIsUnbroken(was: Net, s: Net, plan: Plan, exits: ExitPlan, l: Losses, f: set<Cmd>)
    requires MeshSteady(was, s, plan, l, f) && OwnExits(exits.exits)
    ensures Unbroken(was, s, plan, exits, l, f)
  {
  }

  lemma ExitMomentIsUnbroken(was: Net, mid: Net, s: Net, plan: Plan, exits: ExitPlan, l: Losses, f: set<Cmd>)
    requires MeshSteady(was, mid, plan, l, f) && Orderly(mid, s, exits, f) && OwnExits(exits.exits)
    ensures Unbroken(was, s, plan, exits, l, f)
  {
    MeshMomentIsUnbroken(was, mid, plan, exits, l, f);
  }

  /** A route an accepted peer needs is there at every moment, if it was before and did not lead into an exit. */
  lemma NeededRoutesAreUnbroken(h: Host, s: Net, d: Docs, plan: Plan, f: set<Cmd>, i: nat, p: Prefix)
    requires Moment(h, s, d, f) && PlanFor(d) == Some(plan)
    requires i < |plan.peers| && Accepted(Mesh, plan.peers[i], f) && p in plan.peers[i].allowedIPs
    requires p in h.net.main && !h.net.main[p].Exit?
    ensures p in s.main && s.main[p] == h.net.main[p]
  {
    NeededRoutesAreNotInterrupted(h.net, plan, f, i, p);
  }

  /** This site's own row is taken: there is one exactly if some row has the id, and it is the first such. */
  lemma {:induction false} SiteRowMeaning(sites: seq<Site>, id: int)
    ensures SiteRow(sites, id).Some? <==> exists i :: 0 <= i < |sites| && sites[i].siteId == id
    ensures SiteRow(sites, id).Some? ==> exists i :: FirstRow(sites, i, id) && sites[i] == SiteRow(sites, id).value
    ensures forall i :: FirstRow(sites, i, id) ==> SiteRow(sites, id) == Some(sites[i])
  {
    if sites != [] {
      var rest := sites[1..];
      SiteRowMeaning(rest, id);
      assert forall j :: 0 < j < |sites| ==> sites[j] == rest[j - 1];
      assert forall j :: 0 <= j < |rest| ==> rest[j] == sites[j + 1];
      if sites[0].siteId == id {
        assert FirstRow(sites, 0, id);
      } else {
        if SiteRow(rest, id).Some? {
          var i :| FirstRow(rest, i, id) && rest[i] == SiteRow(rest, id).value;
          assert FirstRow(sites, i + 1, id);
        }
        forall i | FirstRow(sites, i, id) ensures SiteRow(sites, id) == Some(sites[i]) {
          assert FirstRow(rest, i - 1, id);
        }
      }
    }
  }

  predicate FirstRow(sites: seq<Site>, i: int, id: int) {
    0 <= i < |sites| && sites[i].siteId == id && forall j :: 0 <= j < i ==> sites[j].siteId != id
  }

  /** The part of a pass after the documents are in. */
  method ConfigureHost(k: Kernel, tracker: Tracker, peers: PeersDoc, clients: seq<Client>, sites: seq<Site>)
      returns (r: Result<Report>)
    modifies k`links, k`main, k`tables, k`local, k`rules, k`fw, k`chains, k`states, tracker
    ensures (Host(k.Now(), k.fw, tracker.tracked), r)
         == HostAfter(Host(old(k.Now()), old(k.fw), old(tracker.tracked)), Docs(Some(peers), clients, sites), k.faults)
    ensures var h, d := Host(old(k.Now()), old(k.fw), old(tracker.tracked)), Docs(Some(peers), clients, sites);
      && old(k.states) <= k.states
      && (forall i :: |old(k.states)| <= i < |k.states| ==> Moment(h, k.states[i], d, k.faults))
      && ChainsHeld(old(k.chains), k.chains, old(k.fw), k.fw, EntriesLost(h, d))
  {
    var site := FindSite(sites, peers.localSiteId);
    var planned := PlanReconcile(peers, clients, site);
    if planned.Threw? {
      return Threw(planned.error);
    }
    if planned.value.NotReady? {
      return Ok(NotJoined);
    }
    r := ApplyBoth(k, tracker, planned.value.plan, clients, sites);
  }

  /** The part of a pass after the plan is made. */
  method ApplyBoth(k: Kernel, tracker: Tracker, plan: Plan, clients: seq<Client>, sites: seq<Site>)
      returns (r: Result<Report>)
    modifies k`links, k`main, k`tables, k`local, k`rules, k`fw, k`chains, k`states, tracker
    ensures (Host(k.Now(), k.fw, tracker.tracked), r)
         == BothApplied(Host(old(k.Now()), old(k.fw), old(tracker.tracked)), plan,
                        PlanOfExits(clients, sites, plan.siteId), k.faults)
    ensures var h := Host(old(k.Now()), old(k.fw), old(tracker.tracked));
            var exits, l := PlanOfExits(clients, sites, plan.siteId), LossesOf(h, plan, k.faults);
      && old(k.states) <= k.states
      && (forall i :: |old(k.states)| <= i < |k.states| ==> Unbroken(h.net, k.states[i], plan, exits, l, k.faults))
      && ChainsHeld(old(k.chains), k.chains, old(k.fw), k.fw, l.entries)
  {
    ghost var now0, l := k.Now(), LossesOf(Host(k.Now(), k.fw, tracker.tracked), plan, k.faults);
    ghost var chosen := PlanOfExits(clients, sites, plan.siteId);
    ExitsAreTheChosen(clients, sites, plan.siteId);
    var applied := ApplyPlan(k, tracker, plan);
    ghost var now1, states1 := k.Now(), k.states;
    forall i | |old(k.states)| <= i < |states1| ensures Unbroken(now0, states1[i], plan, chosen, l, k.faults) {
      MeshMomentIsUnbroken(now0, states1[i], plan, chosen, l, k.faults);
    }
    if applied.Threw? {
      return Threw(applied.error);
    }
    var exits := PlanExits(clients, sites, plan.siteId);
    var failed := ApplyExits(k, exits);
    forall i | |states1| <= i < |k.states| ensures Unbroken(now0, k.states[i], plan, chosen, l, k.faults) {
      ExitMomentIsUnbroken(now0, now1, k.states[i], plan, chosen, l, k.faults);
    }
    r := Ok(Configured(applied.value, failed));
  }

  method ReconcileMesh(k: Kernel, tracker: Tracker,
                       peersCache: CacheEntry<PeersDoc>, clientsCache: CacheEntry<seq<Client>>,
                       sitesCache: CacheEntry<seq<Site>>, a: Answers) returns (r: Result<Report>)
    modifies k`links, k`main, k`tables, k`local, k`rules, k`fw, k`chains, k`states, tracker, peersCache, clientsCache,
      sitesCache
    ensures var cache := Cache(old(peersCache.stored), old(clientsCache.stored), old(sitesCache.stored));
      && Cache(peersCache.stored, clientsCache.stored, sitesCache.stored) == CacheAfter(cache, a)
      && (Host(k.Now(), k.fw, tracker.tracked), r)
         == HostAfter(Host(old(k.Now()), old(k.fw), old(tracker.tracked)), DocsOf(cache, a), k.faults)
    ensures var h := Host(old(k.Now()), old(k.fw), old(tracker.tracked));
            var d := DocsOf(Cache(old(peersCache.stored), old(clientsCache.stored), old(sitesCache.stored)), a);
      && old(k.states) <= k.states
      && (forall i :: |old(k.states)| <= i < |k.states| ==> Moment(h, k.states[i], d, k.faults))
      && ChainsHeld(old(k.chains), k.chains, old(k.fw), k.fw, EntriesLost(h, d))
  {
    var peers := peersCache.FetchWithCache(a.peers);
    if peers.value == None {
      return Ok(Untouched);
    }
    var clients := clientsCache.FetchWithCache(a.clients);
    var sites := sitesCache.FetchWithCache(a.sites);
    r := ConfigureHost(k, tracker, peers.value.value, OrEmpty(clients.value), OrEmpty(sites.value));
  }
}
