// The peer and route part of applyPlan (services/mesh_state.js): plan in, interface state out.
module PeerReconcile {
  import opened Ipv4
  import opened Kernel
  import opened WgIface
  import opened MeshPlan

  // ----------------------------------------------------------- specifications

  /** `wg set` of this peer is not refused. */
  predicate Accepted(dev: Dev, peer: PeerPlan, f: set<Cmd>) {
    WgSet(dev, peer.publicKey, peer.allowedIPs) !in f
  }

  function Keys(peers: seq<PeerPlan>): set<Key> {
    set i | 0 <= i < |peers| :: peers[i].publicKey
  }

  /** Peer after peer; a failing one is noted and does not stop the rest. */
  function PeersApplied(t: Tunnel, dev: Dev, peers: seq<PeerPlan>, f: set<Cmd>): Tunnel
    decreases peers
  {
    if peers == [] then t
    else PeersApplied(PeerApplied(t, dev, peers[0].publicKey, peers[0].allowedIPs, f).0, dev, peers[1..], f)
  }

  /** The peers whose `setPeer` throws, after those in `failed`. */
  function PeersFailing(dev: Dev, peers: seq<PeerPlan>, failed: seq<Label>, f: set<Cmd>): seq<Label>
    decreases peers
  {
    if peers == [] then failed
    else PeersFailing(dev, peers[1..], if Routable(dev, peers[0], f) then failed else failed + [peers[0].name], f)
  }

  function StaleKeys(t: Tunnel, dev: Dev, peers: seq<PeerPlan>, f: set<Cmd>): set<Key> {
    if PeersShow(dev) in f then {} else t.link.peers - Keys(peers)
  }

  function RoutesEnsured(main: map<Prefix, Dev>, dev: Dev, routes: seq<Prefix>, f: set<Cmd>): (map<Prefix, Dev>, bool)
    decreases routes
  {
    if routes == [] then (main, true)
    else
      var (next, ok) := RouteEnsured(main, routes[0], dev, f);
      if !ok then (next, false) else RoutesEnsured(next, dev, routes[1..], f)
  }

  /** The routes that go with the stale peers, after the first loop. */
  function LostRoutes(t: Tunnel, dev: Dev, peers: seq<PeerPlan>, f: set<Cmd>): set<Prefix> {
    var up := PeersApplied(t, dev, peers, f);
    LostWith(up, dev, StaleKeys(up, dev, peers, f), f)
  }

  /** Peers up, peers down: the two loops of applyPlan. */
  function PeersReconciled(t: Tunnel, dev: Dev, peers: seq<PeerPlan>, f: set<Cmd>): Tunnel {
    var up := PeersApplied(t, dev, peers, f);
    PeersRemoved(up, dev, StaleKeys(up, dev, peers, f), f)
  }

  // -------------------------------------------------- the last claimant decides

  /** The `i`th peer is the last accepted one to claim `p`, and its list is not replaced later. */
  ghost predicate LastClaim(dev: Dev, peers: seq<PeerPlan>, f: set<Cmd>, i: int, p: Prefix) {
    && 0 <= i < |peers| && Accepted(dev, peers[i], f) && p in peers[i].allowedIPs
    && forall j :: i < j < |peers| && Accepted(dev, peers[j], f) ==>
         p !in peers[j].allowedIPs && peers[j].publicKey != peers[i].publicKey
  }

  /** No accepted peer claims `p` or resets `key`. */
  ghost predicate Untouched(dev: Dev, peers: seq<PeerPlan>, f: set<Cmd>, p: Prefix, key: Key) {
    forall j :: 0 <= j < |peers| && Accepted(dev, peers[j], f) ==>
      p !in peers[j].allowedIPs && peers[j].publicKey != key
  }

  ghost predicate Holds(l: Link, p: Prefix, key: Key) {
    p in l.owner && l.owner[p] == key
  }

  ghost predicate Claimed(dev: Dev, peers: seq<PeerPlan>, f: set<Cmd>, p: Prefix, key: Key) {
    exists i :: LastClaim(dev, peers, f, i, p) && peers[i].publicKey == key
  }

  /** Whatever the plan and whichever commands fail: a prefix ends with its last accepted claimant, or
      stays where it was if nothing accepted touches it. */
  lemma {:induction false} PrefixGoesToLastClaimant(t: Tunnel, dev: Dev, peers: seq<PeerPlan>, f: set<Cmd>, p: Prefix,
                                                    key: Key)
    ensures Holds(PeersApplied(t, dev, peers, f).link, p, key) <==>
              Claimed(dev, peers, f, p, key) || (Holds(t.link, p, key) && Untouched(dev, peers, f, p, key))
    decreases peers
  {
    if peers == [] {
      assert !Claimed(dev, peers, f, p, key);
    } else {
      var next := PeerApplied(t, dev, peers[0].publicKey, peers[0].allowedIPs, f).0;
      PrefixGoesToLastClaimant(next, dev, peers[1..], f, p, key);
      ClaimOfTail(dev, peers, f, p, key);
      UntouchedTail(dev, peers, f, p, key);
      if Accepted(dev, peers[0], f) {
        assert next.link == SetAllowedIps(t.link, peers[0].publicKey, peers[0].allowedIPs);
        if p in peers[0].allowedIPs && key == peers[0].publicKey {
          assert Untouched(dev, peers[1..], f, p, key) <==> LastClaim(dev, peers, f, 0, p) by {
            UntouchedIsLast(dev, peers, f, p);
          }
        }
      }
    }
  }

  lemma UntouchedIsLast(dev: Dev, peers: seq<PeerPlan>, f: set<Cmd>, p: Prefix)
    requires peers != [] && Accepted(dev, peers[0], f) && p in peers[0].allowedIPs
    ensures Untouched(dev, peers[1..], f, p, peers[0].publicKey) <==> LastClaim(dev, peers, f, 0, p)
  {
    assert forall j :: 0 < j < |peers| ==> peers[j] == peers[1..][j - 1];
  }

  lemma UntouchedTail(dev: Dev, peers: seq<PeerPlan>, f: set<Cmd>, p: Prefix, key: Key)
    requires peers != []
    ensures Untouched(dev, peers, f, p, key) <==>
              Untouched(dev, peers[1..], f, p, key) &&
              (Accepted(dev, peers[0], f) ==> p !in peers[0].allowedIPs && peers[0].publicKey != key)
  {
    assert forall j :: 0 < j < |peers| ==> peers[j] == peers[1..][j - 1];
  }

  lemma LastClaimOfTail(dev: Dev, peers: seq<PeerPlan>, f: set<Cmd>, i: nat, p: Prefix)
    requires peers != []
    ensures LastClaim(dev, peers[1..], f, i, p) <==> LastClaim(dev, peers, f, i + 1, p)
  {
    assert forall j :: 0 < j < |peers| ==> peers[j] == peers[1..][j - 1];
    assert forall j :: 0 <= j < |peers| - 1 ==> peers[1..][j] == peers[j + 1];
  }

  lemma ClaimOfTail(dev: Dev, peers: seq<PeerPlan>, f: set<Cmd>, p: Prefix, key: Key)
    requires peers != []
    ensures Claimed(dev, peers, f, p, key) <==>
              Claimed(dev, peers[1..], f, p, key) || (LastClaim(dev, peers, f, 0, p) && peers[0].publicKey == key)
  {
    if Claimed(dev, peers, f, p, key) {
      var i :| LastClaim(dev, peers, f, i, p) && peers[i].publicKey == key;
      if i > 0 {
        LastClaimOfTail(dev, peers, f, i - 1, p);
      }
    }
    if Claimed(dev, peers[1..], f, p, key) {
      var i :| LastClaim(dev, peers[1..], f, i, p) && peers[1..][i].publicKey == key;
      LastClaimOfTail(dev, peers, f, i, p);
    }
  }

  /** Which peers the first loop leaves on the interface. */
  lemma {:induction false} PeersAfterLoop(t: Tunnel, dev: Dev, peers: seq<PeerPlan>, f: set<Cmd>, key: Key)
    ensures key in PeersApplied(t, dev, peers, f).link.peers <==>
              || key in t.link.peers
              || exists i :: 0 <= i < |peers| && Accepted(dev, peers[i], f) && peers[i].publicKey == key
    decreases peers
  {
    if peers != [] {
      var next := PeerApplied(t, dev, peers[0].publicKey, peers[0].allowedIPs, f).0;
      PeersAfterLoop(next, dev, peers[1..], f, key);
      assert forall j :: 0 < j < |peers| ==> peers[j] == peers[1..][j - 1];
      assert forall j :: 0 <= j < |peers| - 1 ==> peers[1..][j] == peers[j + 1];
    }
  }

  /** The first loop never takes a route away, and gives every accepted peer its routes. */
  lemma {:induction false} RoutesAfterLoop(t: Tunnel, dev: Dev, peers: seq<PeerPlan>, f: set<Cmd>, p: Prefix)
    ensures var main := PeersApplied(t, dev, peers, f).main;
      && (p in t.main ==> p in main && main[p] == t.main[p])
      && (p in main && p !in t.main ==> main[p] == dev)
      && ((exists i :: 0 <= i < |peers| && Routable(dev, peers[i], f) && p in peers[i].allowedIPs) ==> p in main)
    decreases peers
  {
    if peers != [] {
      var next := PeerApplied(t, dev, peers[0].publicKey, peers[0].allowedIPs, f).0;
      RoutesAddedMeaning(t.main, dev, peers[0].allowedIPs, f);
      RoutesAfterLoop(next, dev, peers[1..], f, p);
      assert forall j :: 0 < j < |peers| ==> peers[j] == peers[1..][j - 1];
      assert forall j :: 0 <= j < |peers| - 1 ==> peers[1..][j] == peers[j + 1];
    }
  }

  /** Every route the first loop adds is for a prefix some peer lists. */
  lemma {:induction false} NewRoutesAreListed(t: Tunnel, dev: Dev, peers: seq<PeerPlan>, f: set<Cmd>, p: Prefix)
    requires p in PeersApplied(t, dev, peers, f).main && p !in t.main
    ensures exists i :: 0 <= i < |peers| && p in peers[i].allowedIPs
    decreases peers
  {
    var next := PeerApplied(t, dev, peers[0].publicKey, peers[0].allowedIPs, f).0;
    RoutesAddedMeaning(t.main, dev, peers[0].allowedIPs, f);
    if p !in next.main {
      NewRoutesAreListed(next, dev, peers[1..], f, p);
      var i :| 0 <= i < |peers[1..]| && p in peers[1..][i].allowedIPs;
      assert peers[i + 1] == peers[1..][i];
    }
  }

  /** `setPeer` of this peer does not throw. */
  predicate Routable(dev: Dev, peer: PeerPlan, f: set<Cmd>) {
    Accepted(dev, peer, f) && forall p :: p in peer.allowedIPs ==> RouteAdd(p, dev) !in f
  }

  // ------------------------------------------------------------- main results

  /** The commands that take stale peers off the interface all work. */
  ghost predicate RemovalsWork(dev: Dev, f: set<Cmd>) {
    PeersShow(dev) !in f && forall key :: WgRemove(dev, key) !in f
  }

  ghost predicate Planned(peers: seq<PeerPlan>, key: Key) {
    exists i :: 0 <= i < |peers| && peers[i].publicKey == key
  }

  /** WireGuard itself sees to it that only peers hold prefixes. */
  ghost predicate Consistent(l: Link) {
    forall p :: p in l.owner ==> l.owner[p] in l.peers
  }

  /** From any state, whichever peers are refused: no unplanned key is left, every accepted key is there,
      and a prefix is held by its last accepted claimant, or still by a planned key nothing reset. */
  lemma PeersConverge(t: Tunnel, dev: Dev, peers: seq<PeerPlan>, f: set<Cmd>)
    requires RemovalsWork(dev, f) && Consistent(t.link)
    ensures var l := PeersReconciled(t, dev, peers, f).link;
      && (forall key :: key in l.peers ==> Planned(peers, key))
      && (forall i :: 0 <= i < |peers| && Accepted(dev, peers[i], f) ==> peers[i].publicKey in l.peers)
      && (forall p, key :: Holds(l, p, key) <==>
            Claimed(dev, peers, f, p, key) || (Holds(t.link, p, key) && Untouched(dev, peers, f, p, key)
                                               && Planned(peers, key)))
  {
    var up := PeersApplied(t, dev, peers, f);
    var gone := StaleKeys(up, dev, peers, f);
    var l := PeersReconciled(t, dev, peers, f).link;
    forall key ensures Planned(peers, key) <==> key in Keys(peers) {
    }
    forall key ensures key in l.peers ==> Planned(peers, key) {
      assert key in l.peers <==> key in up.link.peers && key !in gone;
    }
    forall i | 0 <= i < |peers| && Accepted(dev, peers[i], f) ensures peers[i].publicKey in l.peers {
      PeersAfterLoop(t, dev, peers, f, peers[i].publicKey);
    }
    forall p, key
      ensures Holds(l, p, key) <==>
                Claimed(dev, peers, f, p, key) || (Holds(t.link, p, key) && Untouched(dev, peers, f, p, key)
                                                   && Planned(peers, key))
    {
      PrefixGoesToLastClaimant(t, dev, peers, f, p, key);
      PeersAfterLoop(t, dev, peers, f, key);
      assert Holds(l, p, key) <==> Holds(up.link, p, key) && key !in gone;
      if Claimed(dev, peers, f, p, key) {
        var i :| LastClaim(dev, peers, f, i, p) && peers[i].publicKey == key;
        assert Planned(peers, key);
      }
    }
  }

  ghost predicate DistinctKeys(peers: seq<PeerPlan>) {
    forall i, j :: 0 <= i < j < |peers| ==> peers[i].publicKey != peers[j].publicKey
  }

  /** Without refusals the pass ends with exactly the planned peers, and with exactly the planned
      prefixes if and only if no two peers list the same prefix. */
  lemma ConvergesExactlyWithoutOverlap(t: Tunnel, dev: Dev, peers: seq<PeerPlan>, f: set<Cmd>)
    requires RemovalsWork(dev, f) && Consistent(t.link) && DistinctKeys(peers)
    requires forall i :: 0 <= i < |peers| ==> Accepted(dev, peers[i], f)
    ensures var l := PeersReconciled(t, dev, peers, f).link;
      && l.peers == Keys(peers)
      && (HoldsExactly(l.owner, peers) <==> Distinct(peers))
  {
    var l := PeersReconciled(t, dev, peers, f).link;
    PeersConverge(t, dev, peers, f);
    forall p, key ensures Holds(l, p, key) <==> Claimed(dev, peers, f, p, key) {
      if Planned(peers, key) {
        var i :| 0 <= i < |peers| && peers[i].publicKey == key;
        assert !Untouched(dev, peers, f, p, key);
      }
    }
    OverlapIsTheOnlyObstacle(l, dev, peers, f);
    forall key ensures key in l.peers <==> key in Keys(peers) {
    }
  }

  lemma OverlapIsTheOnlyObstacle(l: Link, dev: Dev, peers: seq<PeerPlan>, f: set<Cmd>)
    requires DistinctKeys(peers) && forall i :: 0 <= i < |peers| ==> Accepted(dev, peers[i], f)
    requires forall p, key :: Holds(l, p, key) <==> Claimed(dev, peers, f, p, key)
    ensures HoldsExactly(l.owner, peers) <==> Distinct(peers)
  {
    if Distinct(peers) {
      forall i, p | 0 <= i < |peers| && p in peers[i].allowedIPs ensures Holds(l, p, peers[i].publicKey) {
        assert LastClaim(dev, peers, f, i, p);
      }
      forall p | p in l.owner
        ensures exists i :: 0 <= i < |peers| && peers[i].publicKey == l.owner[p] && p in peers[i].allowedIPs
      {
        assert Holds(l, p, l.owner[p]);
      }
    }
    if HoldsExactly(l.owner, peers) {
      forall i, j, p | 0 <= i < j < |peers| && p in peers[i].allowedIPs ensures p !in peers[j].allowedIPs {
        assert l.owner[p] == peers[i].publicKey;
      }
    }
  }

  /** One bad peer does not hurt the rest: whichever are refused, each accepted peer holds its own
      prefixes and nothing else. */
  lemma AcceptedPeersHoldTheirOwn(t: Tunnel, dev: Dev, peers: seq<PeerPlan>, f: set<Cmd>, i: nat)
    requires RemovalsWork(dev, f) && Consistent(t.link) && Distinct(peers)
    requires i < |peers| && Accepted(dev, peers[i], f)
    ensures OwnedBy(PeersReconciled(t, dev, peers, f).link, peers[i].publicKey) == set p | p in peers[i].allowedIPs
  {
    var l := PeersReconciled(t, dev, peers, f).link;
    var key := peers[i].publicKey;
    PeersConverge(t, dev, peers, f);
    forall p ensures Holds(l, p, key) <==> p in peers[i].allowedIPs {
      if p in peers[i].allowedIPs {
        assert LastClaim(dev, peers, f, i, p);
      }
      if Claimed(dev, peers, f, p, key) {
        var j :| LastClaim(dev, peers, f, j, p) && peers[j].publicKey == key;
        assert j == i;
      }
    }
    forall p ensures p in OwnedBy(l, key) <==> Holds(l, p, key) {
    }
  }

  /** After peers and mesh-wide routes, every accepted peer's prefixes are routed, even those a removed
      peer used to hold; so are the mesh-wide ranges, even if the hub that held them was removed. Routes
      of other devices are as before. */
  lemma RoutesSurviveRemovals(t: Tunnel, dev: Dev, peers: seq<PeerPlan>, routes: seq<Prefix>, f: set<Cmd>)
    ensures var (main, ok) := RoutesEnsured(PeersReconciled(t, dev, peers, f).main, dev, routes, f);
      && (forall i, p :: 0 <= i < |peers| && Routable(dev, peers[i], f) && p in peers[i].allowedIPs ==> p in main)
      && (ok ==> forall p :: p in routes ==> p in main)
      && (forall p :: p in t.main && t.main[p] != dev ==> p in main && main[p] == t.main[p])
      && (forall p :: p in main && p !in t.main ==> main[p] == dev)
  {
    var up := PeersApplied(t, dev, peers, f);
    var mid := PeersReconciled(t, dev, peers, f).main;
    var (main, ok) := RoutesEnsured(mid, dev, routes, f);
    forall p
      ensures p in mid ==> p in main && main[p] == mid[p]
      ensures p in main && p !in mid ==> main[p] == dev
      ensures ok && p in routes ==> p in main
    {
      RoutesEnsuredMeaning(mid, dev, routes, f, p);
    }
    forall p ensures p in t.main ==> p in up.main && up.main[p] == t.main[p]
      ensures p in up.main && p !in t.main ==> up.main[p] == dev
    {
      RoutesAfterLoop(t, dev, peers, f, p);
    }
    forall i, p | 0 <= i < |peers| && Routable(dev, peers[i], f) && p in peers[i].allowedIPs ensures p in mid {
      RoutesAfterLoop(t, dev, peers, f, p);
      ClaimedIsNotStale(t, dev, peers, f, i, p);
    }
  }

  /** A prefix some accepted peer claims is not held by a key about to be removed. */
  lemma ClaimedIsNotStale(t: Tunnel, dev: Dev, peers: seq<PeerPlan>, f: set<Cmd>, i: nat, p: Prefix)
    requires i < |peers| && Accepted(dev, peers[i], f) && p in peers[i].allowedIPs
    ensures var up := PeersApplied(t, dev, peers, f);
            p in up.link.owner ==> up.link.owner[p] !in StaleKeys(up, dev, peers, f)
  {
    var up := PeersApplied(t, dev, peers, f);
    if p in up.link.owner {
      var key := up.link.owner[p];
      PrefixGoesToLastClaimant(t, dev, peers, f, p, key);
      assert !Untouched(dev, peers, f, p, key);
      var j :| LastClaim(dev, peers, f, j, p) && peers[j].publicKey == key;
      assert key in Keys(peers);
    }
  }

  /** Routes of accepted peers are never among the lost ones. */
  lemma NeededRoutesAreNotLost(t: Tunnel, dev: Dev, peers: seq<PeerPlan>, f: set<Cmd>, i: nat, p: Prefix)
    requires i < |peers| && Accepted(dev, peers[i], f) && p in peers[i].allowedIPs
    ensures p !in LostRoutes(t, dev, peers, f)
  {
    ClaimedIsNotStale(t, dev, peers, f, i, p);
  }

  /** The commands a route through the interface is lost by. */
  predicate RouteGoes(dev: Dev, p: Prefix, f: set<Cmd>) {
    PeersShow(dev) !in f && AllowedShow(dev) !in f && RouteDel(p, dev) !in f
  }

  /** A route is missing between the loop that removes stale peers and the mesh-wide routes exactly when an
      unplanned peer holds its prefix and no accepted peer claims it: 10.0.0.0/8 of a hub that is replaced,
      until `ensureRoute` brings it back. */
  lemma RoutesLostExactly(t: Tunnel, dev: Dev, peers: seq<PeerPlan>, f: set<Cmd>, p: Prefix)
    requires Consistent(t.link) && p in t.main
    ensures p in LostRoutes(t, dev, peers, f) <==>
              && p in t.link.owner && !Planned(peers, t.link.owner[p]) && t.main[p] == dev && RouteGoes(dev, p, f)
              && forall i :: 0 <= i < |peers| && Accepted(dev, peers[i], f) ==> p !in peers[i].allowedIPs
    ensures p !in PeersReconciled(t, dev, peers, f).main <==> p in LostRoutes(t, dev, peers, f)
  {
    var up := PeersApplied(t, dev, peers, f);
    RoutesAfterLoop(t, dev, peers, f, p);
    if p in up.link.owner {
      PrefixGoesToLastClaimant(t, dev, peers, f, p, up.link.owner[p]);
      PeersAfterLoop(t, dev, peers, f, up.link.owner[p]);
    }
    if p in t.link.owner {
      PrefixGoesToLastClaimant(t, dev, peers, f, p, t.link.owner[p]);
      PeersAfterLoop(t, dev, peers, f, t.link.owner[p]);
    }
    forall i | 0 <= i < |peers| && Accepted(dev, peers[i], f) && p in peers[i].allowedIPs
      ensures p !in LostRoutes(t, dev, peers, f)
    {
      NeededRoutesAreNotLost(t, dev, peers, f, i, p);
    }
  }

  lemma {:induction false} RoutesEnsuredMeaning(main: map<Prefix, Dev>, dev: Dev, routes: seq<Prefix>, f: set<Cmd>,
                                                p: Prefix)
    ensures var (after, ok) := RoutesEnsured(main, dev, routes, f);
      && (p in main ==> p in after && after[p] == main[p])
      && (p in after && p !in main ==> p in routes && after[p] == dev)
      && (ok && p in routes ==> p in after)
    decreases routes
  {
    if routes != [] {
      var (next, ok) := RouteEnsured(main, routes[0], dev, f);
      if ok {
        RoutesEnsuredMeaning(next, dev, routes[1..], f, p);
      }
    }
  }

  // -------------------------------------------------------------- idempotence

  /** What an error-free pass leaves behind. */
  ghost predicate PeersSettled(t: Tunnel, dev: Dev, peers: seq<PeerPlan>) {
    && t.link.peers == Keys(peers)
    && (forall p, key :: Holds(t.link, p, key) <==> Claimed(dev, peers, {}, p, key))
    && (forall i, p :: 0 <= i < |peers| && p in peers[i].allowedIPs ==> p in t.main)
  }

  lemma PassSettlesPeers(t: Tunnel, dev: Dev, peers: seq<PeerPlan>)
    requires Consistent(t.link)
    ensures PeersSettled(PeersReconciled(t, dev, peers, {}), dev, peers)
  {
    var u := PeersReconciled(t, dev, peers, {});
    PeersConverge(t, dev, peers, {});
    RoutesSurviveRemovals(t, dev, peers, [], {});
    forall p, key ensures Holds(u.link, p, key) <==> Claimed(dev, peers, {}, p, key) {
      if Planned(peers, key) {
        var i :| 0 <= i < |peers| && peers[i].publicKey == key;
        assert !Untouched(dev, peers, {}, p, key);
      }
    }
    forall key ensures key in u.link.peers <==> key in Keys(peers) {
      if key in Keys(peers) {
        var i :| 0 <= i < |peers| && peers[i].publicKey == key;
        assert Accepted(dev, peers[i], {});
      }
    }
  }

  predicate AllAccepted(dev: Dev, peers: seq<PeerPlan>, f: set<Cmd>) {
    forall i :: 0 <= i < |peers| ==> Accepted(dev, peers[i], f)
  }

  /** On a settled interface a pass changes nothing, whichever commands fail, if no two peers list the same
      prefix, and even if they do when no peer is refused. */
  lemma SettledPeersStay(t: Tunnel, dev: Dev, peers: seq<PeerPlan>, f: set<Cmd>)
    requires PeersSettled(t, dev, peers) && (Distinct(peers) || AllAccepted(dev, peers, f))
    ensures PeersReconciled(t, dev, peers, f) == t
  {
    var up := PeersApplied(t, dev, peers, f);
    forall p, key ensures Holds(up.link, p, key) <==> Holds(t.link, p, key) {
      PrefixGoesToLastClaimant(t, dev, peers, f, p, key);
      SettledHoldersStay(t, dev, peers, f, p, key);
    }
    assert up.link.owner == t.link.owner by {
      forall p ensures p in up.link.owner <==> p in t.link.owner
        ensures p in up.link.owner && p in t.link.owner ==> up.link.owner[p] == t.link.owner[p]
      {
        assert p in up.link.owner ==> Holds(up.link, p, up.link.owner[p]);
        assert p in t.link.owner ==> Holds(t.link, p, t.link.owner[p]);
      }
    }
    forall key ensures key in up.link.peers <==> key in t.link.peers {
      PeersAfterLoop(t, dev, peers, f, key);
    }
    AddrsAfterLoop(t, dev, peers, f);
    PresentRoutesStay(t, dev, peers, f);
    assert up == t;
    assert StaleKeys(up, dev, peers, f) == {};
    assert PeersRemoved(t, dev, {}, f) == t;
  }

  lemma SettledHoldersStay(t: Tunnel, dev: Dev, peers: seq<PeerPlan>, f: set<Cmd>, p: Prefix, key: Key)
    requires PeersSettled(t, dev, peers) && (Distinct(peers) || AllAccepted(dev, peers, f))
    ensures Claimed(dev, peers, f, p, key) || (Holds(t.link, p, key) && Untouched(dev, peers, f, p, key)) <==>
              Claimed(dev, peers, {}, p, key)
  {
    if AllAccepted(dev, peers, f) {
      forall i ensures LastClaim(dev, peers, f, i, p) <==> LastClaim(dev, peers, {}, i, p) {
      }
    } else {
      forall i | 0 <= i < |peers| && p in peers[i].allowedIPs
        ensures LastClaim(dev, peers, {}, i, p) && (Accepted(dev, peers[i], f) ==> LastClaim(dev, peers, f, i, p))
        ensures !Accepted(dev, peers[i], f) ==> Untouched(dev, peers, f, p, peers[i].publicKey)
      {
      }
      if Claimed(dev, peers, {}, p, key) {
        var i :| LastClaim(dev, peers, {}, i, p) && peers[i].publicKey == key;
        assert Accepted(dev, peers[i], f) ==> LastClaim(dev, peers, f, i, p);
      }
    }
  }

  lemma {:induction false} AddrsAfterLoop(t: Tunnel, dev: Dev, peers: seq<PeerPlan>, f: set<Cmd>)
    ensures PeersApplied(t, dev, peers, f).link.addrs == t.link.addrs
    decreases peers
  {
    if peers != [] {
      AddrsAfterLoop(PeerApplied(t, dev, peers[0].publicKey, peers[0].allowedIPs, f).0, dev, peers[1..], f);
    }
  }

  lemma {:induction false} PresentRoutesStay(t: Tunnel, dev: Dev, peers: seq<PeerPlan>, f: set<Cmd>)
    requires forall i, p :: 0 <= i < |peers| && p in peers[i].allowedIPs ==> p in t.main
    ensures PeersApplied(t, dev, peers, f).main == t.main
    decreases peers
  {
    if peers != [] {
      AllRoutesPresent(t.main, dev, peers[0].allowedIPs, f);
      assert forall j :: 0 <= j < |peers| - 1 ==> peers[1..][j] == peers[j + 1];
      PresentRoutesStay(PeerApplied(t, dev, peers[0].publicKey, peers[0].allowedIPs, f).0, dev, peers[1..], f);
    }
  }

  lemma {:induction false} AllRoutesPresent(main: map<Prefix, Dev>, dev: Dev, prefixes: seq<Prefix>, f: set<Cmd>)
    requires forall p :: p in prefixes ==> p in main
    ensures RoutesAdded(main, dev, prefixes, f).0 == main
    decreases prefixes
  {
    if prefixes != [] {
      AllRoutesPresent(main, dev, prefixes[1..], f);
    }
  }

  // -------------------------------------------------------------- no interruption

  /** Setting this peer takes `p` from `key`: another peer lists it, or the same one does not. */
  predicate Moves(dev: Dev, peer: PeerPlan, f: set<Cmd>, p: Prefix, key: Key) {
    Accepted(dev, peer, f) && (p in peer.allowedIPs) != (peer.publicKey == key)
  }

  /** No peer of the plan takes `p` from `key`, not even to be followed by one that gives it back. */
  predicate Uncontested(dev: Dev, peers: seq<PeerPlan>, f: set<Cmd>, p: Prefix, key: Key) {
    forall j :: 0 <= j < |peers| ==> !Moves(dev, peers[j], f, p, key)
  }

  /** Every uncontested prefix a planned peer held in `l`, it still holds in `m`. */
  ghost predicate KeepsHeld(dev: Dev, peers: seq<PeerPlan>, f: set<Cmd>, l: Link, m: Link) {
    forall p, key :: Holds(l, p, key) && Planned(peers, key) && Uncontested(dev, peers, f, p, key) ==> Holds(m, p, key)
  }

  /** At some moment since `before` the prefix is not held by the key. */
  ghost predicate MissedSince(before: seq<Net>, states: seq<Net>, dev: Dev, p: Prefix, key: Key) {
    exists i :: |before| <= i < |states| && dev in states[i].links && !Holds(states[i].links[dev], p, key)
  }

  lemma StillMissed(before: seq<Net>, states: seq<Net>, more: seq<Net>, dev: Dev, p: Prefix, key: Key)
    requires MissedSince(before, states, dev, p, key) && states <= more
    ensures MissedSince(before, more, dev, p, key)
  {
    var i :| |before| <= i < |states| && dev in states[i].links && !Holds(states[i].links[dev], p, key);
    assert more[i] == states[i];
  }

  lemma MissedEarlier(before: seq<Net>, later: seq<Net>, states: seq<Net>, dev: Dev, p: Prefix, key: Key)
    requires MissedSince(later, states, dev, p, key) && |before| <= |later|
    ensures MissedSince(before, states, dev, p, key)
  {
  }

  /** Other links and the addresses of this one are as they were. */
  ghost predicate OnlyPeersChange(dev: Dev, was: Net, s: Net)
    requires dev in was.links
  {
    && dev in s.links && s.links[dev].addrs == was.links[dev].addrs
    && s == was.(links := was.links[dev := s.links[dev]], main := s.main)
  }

  /** A moment of a pass: no prefix that was in place for the plan is missing, and no route but those that
      go with stale peers. */
  ghost predicate Uninterrupted(dev: Dev, peers: seq<PeerPlan>, f: set<Cmd>, was: Net, s: Net)
    requires dev in was.links
  {
    && OnlyPeersChange(dev, was, s)
    && KeepsHeld(dev, peers, f, was.links[dev], s.links[dev])
    && RoutesKept(was, s, LostRoutes(Tunnel(was.links[dev], was.main), dev, peers, f))
  }

  lemma SettingKeeps(dev: Dev, peers: seq<PeerPlan>, f: set<Cmd>, l: Link, m: Link, j: nat)
    requires j < |peers| && Accepted(dev, peers[j], f) && KeepsHeld(dev, peers, f, l, m)
    ensures KeepsHeld(dev, peers, f, l, SetAllowedIps(m, peers[j].publicKey, peers[j].allowedIPs))
  {
    forall p, key | Uncontested(dev, peers, f, p, key) ensures !Moves(dev, peers[j], f, p, key) {
    }
  }

  /** A moment of the first loop. */
  ghost predicate Raised(dev: Dev, peers: seq<PeerPlan>, f: set<Cmd>, was: Net, s: Net)
    requires dev in was.links
  {
    && OnlyPeersChange(dev, was, s)
    && KeepsHeld(dev, peers, f, was.links[dev], s.links[dev])
    && RoutesKept(was, s, {})
  }

  lemma RaisedOnwards(dev: Dev, peers: seq<PeerPlan>, f: set<Cmd>, was: Net, mid: Net, s: Net)
    requires dev in was.links && dev in mid.links
    requires Raised(dev, peers, f, was, mid) && Raised(dev, peers, f, mid, s)
    ensures Raised(dev, peers, f, was, s)
  {
  }

  /** One round of the first loop. */
  method ApplyPeer(k: Kernel, dev: Dev, peers: seq<PeerPlan>, i: nat) returns (ok: bool)
    requires dev in k.links && i < |peers|
    modifies k`links, k`main, k`states
    ensures var (t, done) := PeerApplied(Tunnel(old(k.links)[dev], old(k.main)), dev, peers[i].publicKey,
                                         peers[i].allowedIPs, k.faults);
      k.links == old(k.links)[dev := t.link] && k.main == t.main && ok == done == Routable(dev, peers[i], k.faults)
    ensures old(k.states) <= k.states
    ensures Raised(dev, peers, k.faults, old(k.Now()), k.Now())
    ensures forall j :: |old(k.states)| <= j < |k.states| ==> Raised(dev, peers, k.faults, old(k.Now()), k.states[j])
    ensures forall p, key :: Moves(dev, peers[i], k.faults, p, key) ==>
              MissedSince(old(k.states), k.states, dev, p, key)
  {
    if Accepted(dev, peers[i], k.faults) {
      SettingKeeps(dev, peers, k.faults, k.links[dev], k.links[dev], i);
    }
    ghost var states0 := k.states;
    RoutesAddedMeaning(k.main, dev, peers[i].allowedIPs, k.faults);
    ok := SetPeer(k, dev, peers[i].publicKey, peers[i].allowedIPs);
    forall p, key | Moves(dev, peers[i], k.faults, p, key) ensures MissedSince(states0, k.states, dev, p, key) {
      assert k.states[|states0|].links == k.links;
    }
  }

  /** The peers of the plan, one after the other. */
  method ApplyPeers(k: Kernel, dev: Dev, peers: seq<PeerPlan>) returns (failed: seq<Label>)
    requires dev in k.links
    modifies k`links, k`main, k`states
    ensures k.links == old(k.links)[dev := PeersApplied(Tunnel(old(k.links)[dev], old(k.main)), dev, peers,
                                                        k.faults).link]
    ensures k.main == PeersApplied(Tunnel(old(k.links)[dev], old(k.main)), dev, peers, k.faults).main
    ensures failed == PeersFailing(dev, peers, [], k.faults)
    ensures old(k.states) <= k.states
    ensures Raised(dev, peers, k.faults, old(k.Now()), k.Now())
    ensures forall i :: |old(k.states)| <= i < |k.states| ==> Raised(dev, peers, k.faults, old(k.Now()), k.states[i])
    ensures forall p, key :: !Uncontested(dev, peers, k.faults, p, key) ==>
              MissedSince(old(k.states), k.states, dev, p, key)
  {
    ghost var links0, now0 := k.links, k.Now();
    ghost var all := PeersApplied(Tunnel(links0[dev], k.main), dev, peers, k.faults);
    failed := [];
    ghost var link := links0[dev];
    assert links0 == links0[dev := link];
    for i := 0 to |peers|
      invariant k.links == links0[dev := link]
      invariant PeersApplied(Tunnel(link, k.main), dev, peers[i..], k.faults) == all
      invariant PeersFailing(dev, peers[i..], failed, k.faults) == PeersFailing(dev, peers, [], k.faults)
      invariant Raised(dev, peers, k.faults, now0, k.Now())
      invariant old(k.states) <= k.states
      invariant forall j :: |old(k.states)| <= j < |k.states| ==> Raised(dev, peers, k.faults, now0, k.states[j])
      invariant forall j, p, key :: 0 <= j < i && Moves(dev, peers[j], k.faults, p, key) ==>
                  MissedSince(old(k.states), k.states, dev, p, key)
    {
      assert peers[i..][1..] == peers[i + 1..] && peers[i..][0] == peers[i];
      ghost var now1, states1 := k.Now(), k.states;
      var ok := ApplyPeer(k, dev, peers, i);
      if !ok {
        failed := failed + [peers[i].name];
      }
      link := k.links[dev];
      RaisedOnwards(dev, peers, k.faults, now0, now1, k.Now());
      forall j | |states1| <= j < |k.states| ensures Raised(dev, peers, k.faults, now0, k.states[j]) {
        RaisedOnwards(dev, peers, k.faults, now0, now1, k.states[j]);
      }
      forall j, p, key | 0 <= j <= i && Moves(dev, peers[j], k.faults, p, key)
        ensures MissedSince(old(k.states), k.states, dev, p, key)
      {
        if j < i {
          StillMissed(old(k.states), states1, k.states, dev, p, key);
        } else {
          MissedEarlier(old(k.states), states1, k.states, dev, p, key);
        }
      }
    }
  }

  /** A moment of the second loop. */
  ghost predicate Lowered(dev: Dev, peers: seq<PeerPlan>, f: set<Cmd>, was: Net, s: Net, gone: set<Key>)
    requires dev in was.links
  {
    && OnlyPeersChange(dev, was, s)
    && KeepsHeld(dev, peers, f, was.links[dev], s.links[dev])
    && s.links[dev].owner.Keys <= was.links[dev].owner.Keys
    && (forall p :: p in s.links[dev].owner ==> s.links[dev].owner[p] == was.links[dev].owner[p])
    && RoutesKept(was, s, LostWith(Tunnel(was.links[dev], was.main), dev, gone, f))
  }

  lemma LoweredOnwards(dev: Dev, peers: seq<PeerPlan>, f: set<Cmd>, was: Net, mid: Net, s: Net, gone: set<Key>,
                       key: Key)
    requires dev in was.links && dev in mid.links && key in gone
    requires Lowered(dev, peers, f, was, mid, gone) && Lowered(dev, peers, f, mid, s, {key})
    requires forall p :: p in mid.main ==> p in was.main && mid.main[p] == was.main[p]
    ensures Lowered(dev, peers, f, was, s, gone)
  {
    assert LostWith(Tunnel(mid.links[dev], mid.main), dev, {key}, f)
           <= LostWith(Tunnel(was.links[dev], was.main), dev, gone, f);
  }

  /** Removing peers one by one removes them all. */
  lemma RemoveOneMorePeer(t: Tunnel, dev: Dev, gone: set<Key>, key: Key, f: set<Cmd>)
    requires key !in gone
    ensures PeersRemoved(PeersRemoved(t, dev, gone, f), dev, {key}, f) == PeersRemoved(t, dev, gone + {key}, f)
  {
    var a, b := PeersRemoved(PeersRemoved(t, dev, gone, f), dev, {key}, f), PeersRemoved(t, dev, gone + {key}, f);
    assert a.link.owner == b.link.owner;
    assert a.main == b.main;
  }

  /** One round of the second loop. */
  method RemoveUnplanned(k: Kernel, dev: Dev, peers: seq<PeerPlan>, key: Key)
    requires dev in k.links && key !in Keys(peers)
    modifies k`links, k`main, k`states
    ensures var t := PeersRemoved(Tunnel(old(k.links)[dev], old(k.main)), dev, {key}, k.faults);
      k.links == old(k.links)[dev := t.link] && k.main == t.main
    ensures Recorded(old(k.states), k.states, old(k.Now()), k.Now())
    ensures Lowered(dev, peers, k.faults, old(k.Now()), k.Now(), {key})
    ensures forall j :: |old(k.states)| <= j < |k.states| ==>
              Lowered(dev, peers, k.faults, old(k.Now()), k.states[j], {key})
  {
    RemovePeer(k, dev, key);
  }

  /** Anything on the interface that is no longer in the plan goes. */
  method RemoveStalePeers(k: Kernel, dev: Dev, peers: seq<PeerPlan>)
    requires dev in k.links
    modifies k`links, k`main, k`states
    ensures var t0 := Tunnel(old(k.links)[dev], old(k.main));
            var t := PeersRemoved(t0, dev, StaleKeys(t0, dev, peers, k.faults), k.faults);
      k.links == old(k.links)[dev := t.link] && k.main == t.main
    ensures Recorded(old(k.states), k.states, old(k.Now()), k.Now())
    ensures Lowered(dev, peers, k.faults, old(k.Now()), k.Now(),
                    StaleKeys(Tunnel(old(k.links)[dev], old(k.main)), dev, peers, k.faults))
    ensures forall j :: |old(k.states)| <= j < |k.states| ==>
              Lowered(dev, peers, k.faults, old(k.Now()), k.states[j],
                      StaleKeys(Tunnel(old(k.links)[dev], old(k.main)), dev, peers, k.faults))
  {
    ghost var links0, now0 := k.links, k.Now();
    ghost var t0 := Tunnel(links0[dev], k.main);
    ghost var stale := StaleKeys(t0, dev, peers, k.faults);
    ghost var gone: set<Key> := {};
    ghost var link := links0[dev];
    var keys := ListPeers(k, dev);
    var wanted := Keys(peers);
    assert links0 == links0[dev := link];
    assert PeersRemoved(t0, dev, {}, k.faults) == t0;
    for i := 0 to |keys|
      invariant k.links == links0[dev := link]
      invariant gone == set x | x in keys[..i] && x !in wanted
      invariant Tunnel(link, k.main) == PeersRemoved(t0, dev, gone, k.faults)
      invariant Lowered(dev, peers, k.faults, now0, k.Now(), stale)
      invariant Recorded(old(k.states), k.states, old(k.Now()), k.Now())
      invariant forall j :: |old(k.states)| <= j < |k.states| ==>
                Lowered(dev, peers, k.faults, now0, k.states[j], stale)
    {
      assert keys[..i + 1] == keys[..i] + [keys[i]];
      if keys[i] !in wanted {
        assert keys[i] in (set x | x in keys);
        ghost var now1, states1 := k.Now(), k.states;
        RemoveUnplanned(k, dev, peers, keys[i]);
        RemoveOneMorePeer(t0, dev, gone, keys[i], k.faults);
        gone := gone + {keys[i]};
        link := k.links[dev];
        LoweredOnwards(dev, peers, k.faults, now0, now1, k.Now(), stale, keys[i]);
        forall j | |states1| <= j < |k.states| ensures Lowered(dev, peers, k.faults, now0, k.states[j], stale) {
          LoweredOnwards(dev, peers, k.faults, now0, now1, k.states[j], stale, keys[i]);
        }
      }
    }
    assert gone == stale;
  }

  /** At some moment since `before` there is no route for the prefix. */
  ghost predicate UnroutedSince(before: seq<Net>, states: seq<Net>, p: Prefix) {
    exists i :: |before| <= i < |states| && p !in states[i].main
  }

  /** Both loops. At every moment the planned peers hold the prefixes they held, and the routes are there; a
      contested prefix and a lost route really are missing at some moment. */
  method ReconcilePeers(k: Kernel, dev: Dev, peers: seq<PeerPlan>) returns (failed: seq<Label>)
    requires dev in k.links
    modifies k`links, k`main, k`states
    ensures var t := PeersReconciled(Tunnel(old(k.links)[dev], old(k.main)), dev, peers, k.faults);
      k.links == old(k.links)[dev := t.link] && k.main == t.main
    ensures failed == PeersFailing(dev, peers, [], k.faults)
    ensures old(k.states) <= k.states
    ensures Uninterrupted(dev, peers, k.faults, old(k.Now()), k.Now())
    ensures forall j :: |old(k.states)| <= j < |k.states| ==>
              Uninterrupted(dev, peers, k.faults, old(k.Now()), k.states[j])
    ensures forall p, key :: !Uncontested(dev, peers, k.faults, p, key) ==>
              MissedSince(old(k.states), k.states, dev, p, key)
    ensures var lost := LostRoutes(Tunnel(old(k.links)[dev], old(k.main)), dev, peers, k.faults);
            forall p :: p in old(k.main) && p in lost ==> UnroutedSince(old(k.states), k.states, p)
  {
    ghost var links0, now0 := k.links, k.Now();
    failed := ApplyPeers(k, dev, peers);
    ghost var now1, states1 := k.Now(), k.states;
    RemoveStalePeers(k, dev, peers);
    assert k.links == links0[dev := k.links[dev]];
    forall p, key | !Uncontested(dev, peers, k.faults, p, key)
      ensures MissedSince(old(k.states), k.states, dev, p, key)
    {
      StillMissed(old(k.states), states1, k.states, dev, p, key);
    }
    forall p | p in now0.main && p in LostRoutes(Tunnel(links0[dev], now0.main), dev, peers, k.faults)
      ensures UnroutedSince(old(k.states), k.states, p)
    {
      assert p in now1.main && p !in k.main;
      assert k.states[|k.states| - 1] == k.Now();
    }
    LoweredIsUninterrupted(dev, peers, k.faults, now0, now1, k.Now());
    forall j | |old(k.states)| <= j < |k.states| ensures Uninterrupted(dev, peers, k.faults, now0, k.states[j]) {
      if j < |states1| {
        RaisedIsUninterrupted(dev, peers, k.faults, now0, k.states[j]);
      } else {
        LoweredIsUninterrupted(dev, peers, k.faults, now0, now1, k.states[j]);
      }
    }
  }

  lemma RaisedIsUninterrupted(dev: Dev, peers: seq<PeerPlan>, f: set<Cmd>, was: Net, s: Net)
    requires dev in was.links && Raised(dev, peers, f, was, s)
    ensures Uninterrupted(dev, peers, f, was, s)
  {
  }

  lemma LoweredIsUninterrupted(dev: Dev, peers: seq<PeerPlan>, f: set<Cmd>, was: Net, mid: Net, s: Net)
    requires dev in was.links && dev in mid.links && Raised(dev, peers, f, was, mid)
    requires Tunnel(mid.links[dev], mid.main) == PeersApplied(Tunnel(was.links[dev], was.main), dev, peers, f)
    requires Lowered(dev, peers, f, mid, s, StaleKeys(Tunnel(mid.links[dev], mid.main), dev, peers, f))
    ensures Uninterrupted(dev, peers, f, was, s)
  {
  }

  /** The mesh-wide routes. `false` stands for the exception of one that could not be added. */
  method EnsureRoutes(k: Kernel, dev: Dev, routes: seq<Prefix>) returns (ok: bool)
    modifies k`main, k`states
    ensures (k.main, ok) == RoutesEnsured(old(k.main), dev, routes, k.faults)
    ensures old(k.states) <= k.states
    ensures forall j :: |old(k.states)| <= j < |k.states| ==>
              RoutesKept(old(k.Now()), k.states[j], {}) && k.states[j].links == k.links
  {
    ghost var main0 := k.main;
    for i := 0 to |routes|
      invariant RoutesEnsured(k.main, dev, routes[i..], k.faults) == RoutesEnsured(main0, dev, routes, k.faults)
      invariant forall p :: p in main0 ==> p in k.main && k.main[p] == main0[p]
      invariant old(k.states) <= k.states
      invariant forall j :: |old(k.states)| <= j < |k.states| ==>
                RoutesKept(old(k.Now()), k.states[j], {}) && k.states[j].links == k.links
    {
      assert routes[i..][1..] == routes[i + 1..];
      ok := EnsureRoute(k, routes[i], dev);
      if !ok {
        return;
      }
    }
    ok := true;
  }

  // ------------------------------------------------- which peers and routes fail

  /** A peer is reported as failed exactly if `wg` refuses it or one of its routes cannot be added. */
  lemma {:induction false} PeersFailingExactly(dev: Dev, peers: seq<PeerPlan>, failed: seq<Label>, f: set<Cmd>,
                                               name: Label)
    ensures name in PeersFailing(dev, peers, failed, f) <==>
              || name in failed
              || exists i :: 0 <= i < |peers| && peers[i].name == name
                   && (WgSet(dev, peers[i].publicKey, peers[i].allowedIPs) in f
                       || exists p :: p in peers[i].allowedIPs && RouteAdd(p, dev) in f)
    decreases peers
  {
    if peers != [] {
      var rest := peers[1..];
      PeersFailingExactly(dev, rest, if Routable(dev, peers[0], f) then failed else failed + [peers[0].name], f, name);
      assert forall j :: 0 < j < |peers| ==> peers[j] == rest[j - 1];
      assert forall j :: 0 <= j < |rest| ==> rest[j] == peers[j + 1];
    }
  }

  /** The mesh-wide routes throw exactly if one of them is not seen on the device and cannot be added. */
  lemma {:induction false} RoutesEnsuredExactly(main: map<Prefix, Dev>, dev: Dev, routes: seq<Prefix>, f: set<Cmd>)
    ensures RoutesEnsured(main, dev, routes, f).1 <==>
              forall p :: p in routes ==>
                (RouteShow(p, dev) !in f && p in main && main[p] == dev) || RouteAdd(p, dev) !in f
    decreases routes
  {
    if routes != [] {
      var (next, ok) := RouteEnsured(main, routes[0], dev, f);
      assert forall p :: p in routes <==> p == routes[0] || p in routes[1..];
      if ok {
        RoutesEnsuredExactly(next, dev, routes[1..], f);
      }
    }
  }
}
