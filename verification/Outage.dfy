// Runs of many passes, with the directory coming and going.
module Outage {
  import opened Wrappers
  import opened Kernel
  import opened MeshPlan
  import opened MeshState
  import opened DirectoryClient
  import opened Reconcile
  import opened Settling
  import opened Delivery
  import opened PeerReconcile
  import opened ExitPlan

  /** The host and the cached documents. */
  datatype World = World(host: Host, cache: Cache)

  /** One pass: what the directory answers, and which commands fail. */
  datatype PassInput = PassInput(answers: Answers, faults: set<Cmd>)

  function WorldAfter(w: World, p: PassInput): World {
    World(HostAfter(w.host, DocsOf(w.cache, p.answers), p.faults).0, CacheAfter(w.cache, p.answers))
  }

  function WorldAfterRun(w: World, run: seq<PassInput>): World
    decreases run
  {
    if run == [] then w else WorldAfterRun(WorldAfter(w, run[0]), run[1..])
  }

  /** The directory hands out these documents, they can be written, and no command fails. */
  predicate GoodPass(p: PassInput, peers: PeersDoc, clients: seq<Client>, sites: seq<Site>) {
    && p.answers.peers.response == Some(peers) && p.answers.peers.canWrite
    && p.answers.clients.response == Some(clients) && p.answers.clients.canWrite
    && p.answers.sites.response == Some(sites) && p.answers.sites.canWrite
    && p.faults == {}
  }

  // ----------------------------------------------- what a pass goes by, over runs

  /** The attempts at the peers document. */
  function PeersTried(run: seq<PassInput>): seq<Attempt<PeersDoc>> {
    if run == [] then [] else [run[0].answers.peers] + PeersTried(run[1..])
  }

  /** The passes that have a peers document: only they ask for the other two. */
  function Informed(c: Cache, run: seq<PassInput>): seq<Answers>
    decreases run
  {
    if run == [] then []
    else
      var rest := Informed(CacheAfter(c, run[0].answers), run[1..]);
      if Served(c.peers, run[0].answers.peers).value == None then rest else [run[0].answers] + rest
  }

  function ClientsTried(answers: seq<Answers>): seq<Attempt<seq<Client>>> {
    if answers == [] then [] else [answers[0].clients] + ClientsTried(answers[1..])
  }

  function SitesTried(answers: seq<Answers>): seq<Attempt<seq<Site>>> {
    if answers == [] then [] else [answers[0].sites] + SitesTried(answers[1..])
  }

  /** The host does not enter into what is cached. */
  lemma {:induction false} CacheAfterRun(w: World, run: seq<PassInput>)
    ensures WorldAfterRun(w, run).cache == Cache(
              StoredAfterRun(w.cache.peers, PeersTried(run)),
              StoredAfterRun(w.cache.clients, ClientsTried(Informed(w.cache, run))),
              StoredAfterRun(w.cache.sites, SitesTried(Informed(w.cache, run))))
    decreases run
  {
    if run != [] {
      CacheAfterRun(WorldAfter(w, run[0]), run[1..]);
    }
  }

  /** Nothing answers. */
  predicate Unanswered(a: Answers) {
    a.peers.response == None && a.clients.response == None && a.sites.response == None
  }

  predicate Readable(a: Answers) {
    a.peers.canRead && a.clients.canRead && a.sites.canRead
  }

  /** Whatever happened before, a pass that nothing answers goes by the last version of each document
      that was fetched and saved. It has a document less exactly if that one was never saved or cannot be
      read; without the clients or the roster, these count as empty. */
  lemma OutageGoesByLastGood(host: Host, run: seq<PassInput>, a: Answers)
    requires Unanswered(a)
    ensures var informed := Informed(Cache(None, None, None), run);
            var d := DocsOf(WorldAfterRun(World(host, Cache(None, None, None)), run).cache, a);
      && (d.peers == None <==> !a.peers.canRead || NoneGood(PeersTried(run)))
      && (forall i :: a.peers.canRead && LastGood(PeersTried(run), i) ==> d.peers == PeersTried(run)[i].response)
      && (d.peers.Some? ==>
            && (!a.clients.canRead || NoneGood(ClientsTried(informed)) ==> d.clients == [])
            && (forall i :: a.clients.canRead && LastGood(ClientsTried(informed), i) ==>
                Some(d.clients) == ClientsTried(informed)[i].response)
            && (!a.sites.canRead || NoneGood(SitesTried(informed)) ==> d.sites == [])
            && (forall i :: a.sites.canRead && LastGood(SitesTried(informed), i) ==>
                Some(d.sites) == SitesTried(informed)[i].response))
  {
    var informed := Informed(Cache(None, None, None), run);
    CacheAfterRun(World(host, Cache(None, None, None)), run);
    OutageServesLastGood(PeersTried(run), a.peers);
    OutageServesLastGood(ClientsTried(informed), a.clients);
    OutageServesLastGood(SitesTried(informed), a.sites);
  }

  // ------------------------------------------------------- what becomes of the host

  /** As long as no peers document was ever saved and the directory does not answer, the host is not
      touched at all, whichever commands would fail. */
  lemma {:induction false} NothingKnownNothingTouched(w: World, run: seq<PassInput>)
    requires w.cache.peers == None && forall i :: 0 <= i < |run| ==> run[i].answers.peers.response == None
    ensures WorldAfterRun(w, run) == w
    decreases run
  {
    if run != [] {
      assert WorldAfter(w, run[0]) == w;
      NothingKnownNothingTouched(w, run[1..]);
    }
  }

  /** The cache holds these documents. */
  predicate Holding(c: Cache, peers: PeersDoc, clients: seq<Client>, sites: seq<Site>) {
    && c.peers.Some? && c.peers.value.value == peers
    && c.clients.Some? && c.clients.value.value == clients
    && c.sites.Some? && c.sites.value.value == sites
  }

  /** A pass that nothing answers, with readable caches and failures that do this host no harm. */
  ghost predicate QuietPass(h: Host, d: Docs, p: PassInput) {
    Unanswered(p.answers) && Readable(p.answers) && HarmlessFor(h, d, p.faults)
  }

  /** A settled host is left as it is by an outage of any length, with any harmless failures. */
  lemma {:induction false} OutageOfSettledHost(w: World, run: seq<PassInput>, peers: PeersDoc, clients: seq<Client>,
                                               sites: seq<Site>)
    requires Holding(w.cache, peers, clients, sites) && SettledFor(w.host, Docs(Some(peers), clients, sites))
    requires forall i :: 0 <= i < |run| ==> QuietPass(w.host, Docs(Some(peers), clients, sites), run[i])
    ensures WorldAfterRun(w, run) == w
    decreases run
  {
    if run != [] {
      var d := Docs(Some(peers), clients, sites);
      assert QuietPass(w.host, d, run[0]);
      assert DocsOf(w.cache, run[0].answers) == d;
      SettledHostStays(w.host, d, run[0].faults);
      assert WorldAfter(w, run[0]) == w;
      OutageOfSettledHost(w, run[1..], peers, clients, sites);
    }
  }

  /** From any state: two good passes with the same documents, then an outage of any length, with any harmless
      failures. The host is at its end exactly as the second good pass left it. */
  lemma OutageGoesUnnoticed(w: World, first: PassInput, second: PassInput, run: seq<PassInput>,
                            peers: PeersDoc, clients: seq<Client>, sites: seq<Site>)
    requires Sound(w.host.net)
    requires GoodPass(first, peers, clients, sites) && GoodPass(second, peers, clients, sites)
    requires var settled := WorldAfter(WorldAfter(w, first), second);
             forall i :: 0 <= i < |run| ==> QuietPass(settled.host, Docs(Some(peers), clients, sites), run[i])
    ensures var settled := WorldAfter(WorldAfter(w, first), second);
            WorldAfterRun(settled, run) == settled
  {
    var d := Docs(Some(peers), clients, sites);
    assert DocsOf(w.cache, first.answers) == d;
    var once := WorldAfter(w, first);
    assert DocsOf(once.cache, second.answers) == d;
    TwoPassesSettle(w.host, d);
    OutageOfSettledHost(WorldAfter(once, second), run, peers, clients, sites);
  }

  // ------------------------------------------------ when the devices' document is missing

  lemma DevicesArePlannedFrom(d: Docs, plan: Plan, c: Client)
    requires PlanFor(d) == Some(plan) && Connectable(c)
    requires forall p :: p in d.peers.value.peers || p in d.peers.value.exitPeers ==> p.publicKey != c.publicKey
    requires c in d.clients || forall b :: b in d.clients ==> b.publicKey != c.publicKey
    ensures c.publicKey in Keys(plan.peers) <==> c in d.clients
  {
    var site := SiteRow(d.sites, d.peers.value.localSiteId);
    if c in d.clients {
      PlansComeFromRows(d.peers.value, d.clients, site, plan, ClientPlan(c));
      var i :| 0 <= i < |plan.peers| && plan.peers[i] == ClientPlan(c);
    }
    if c.publicKey in Keys(plan.peers) {
      var i :| 0 <= i < |plan.peers| && plan.peers[i].publicKey == c.publicKey;
      PlansComeFromRows(d.peers.value, d.clients, site, plan, plan.peers[i]);
    }
  }

  /** When the clients document is not answered but the peers document is there, a device of the saved one stays
      on the mesh interface exactly if the saved one can be read: otherwise the pass goes by no devices at
      all, and removes every one. */
  lemma DevicesStayExactly(h: Host, cache: Cache, a: Answers, c: Client)
    requires Sound(h.net) && PlanFor(DocsOf(cache, a)).Some?
    requires a.clients.response == None && cache.clients.Some? && c in cache.clients.value.value && Connectable(c)
    requires var doc := DocsOf(cache, a).peers.value;
             forall p :: p in doc.peers || p in doc.exitPeers ==> p.publicKey != c.publicKey
    ensures var links := HostAfter(h, DocsOf(cache, a), {}).0.net.links;
            Mesh in links && (c.publicKey in links[Mesh].peers <==> a.clients.canRead)
  {
    var d := DocsOf(cache, a);
    var plan := PlanFor(d).value;
    ExitsAreTheChosen(d.clients, d.sites, plan.siteId);
    PassKeepsRaised(h, plan, PlanOfExits(d.clients, d.sites, plan.siteId));
    MeshPassPutsInPlace(h.net, plan);
    DevicesArePlannedFrom(d, plan, c);
  }
}
