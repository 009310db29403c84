// Driving one WireGuard interface with `wg` and `ip` (utils/wg_iface.js).
module WgIface {
  import opened Ipv4
  import opened MeshAddressing
  import opened Kernel

  /** What the peers and routes of one interface live in: the link and the main routing table. */
  datatype Tunnel = Tunnel(link: Link, main: map<Prefix, Dev>)

  /** The states after `before` up to the present differ from `was` in links and routes only, and
      every route of `was` that is gone belonged to `lost`. */
  ghost predicate RoutesKept(was: Net, s: Net, lost: set<Prefix>) {
    && s == was.(links := s.links, main := s.main)
    && forall p :: p in was.main && p !in lost ==> p in s.main && s.main[p] == was.main[p]
  }

  /** The states of a run of commands, from those of `before`: the last is the present one. */
  ghost predicate Recorded(before: seq<Net>, states: seq<Net>, was: Net, now: Net) {
    && before <= states
    && if states == before then now == was else states[|states| - 1] == now
  }

  // ----------------------------------------------------------- specifications

  function InterfaceEnsured(links: map<Dev, Link>, dev: Dev, f: set<Cmd>): (map<Dev, Link>, bool) {
    if dev in links && DevShow(dev) !in f then (links, true)
    else if LinkAdd(dev) in f then (links, false)
    else (if dev in links then links else links[dev := FRESH_LINK], true)
  }

  /** Adds every wanted address that was not shown as present; stops at one that cannot be added. */
  function AddressesAdded(addrs: set<Cidr>, present: set<Cidr>, dev: Dev, wanted: seq<Cidr>,
                          f: set<Cmd>): (r: (set<Cidr>, bool))
    decreases wanted
    ensures addrs <= r.0 <= addrs + (set a | a in wanted)
    ensures present <= addrs && r.1 ==> forall a :: a in wanted ==> a in r.0
  {
    if wanted == [] then (addrs, true)
    else if wanted[0] in present then AddressesAdded(addrs, present, dev, wanted[1..], f)
    else if AddrAdd(dev, wanted[0]) in f then (addrs, false)
    else AddressesAdded(addrs + {wanted[0]}, present, dev, wanted[1..], f)
  }

  function AddressesAfter(addrs: set<Cidr>, dev: Dev, wanted: seq<Cidr>, f: set<Cmd>): (set<Cidr>, bool) {
    var present := if AddrShow(dev) in f then {} else addrs;
    var (more, ok) := AddressesAdded(addrs, present, dev, wanted, f);
    if !ok then (more, false)
    else (AddressesDropped(more, present, dev, wanted, f), LinkUp(dev) !in f)
  }

  function AddressesDropped(addrs: set<Cidr>, present: set<Cidr>, dev: Dev, wanted: seq<Cidr>, f: set<Cmd>): set<Cidr> {
    set a | a in addrs && !(a in present && a !in wanted && AddrDel(dev, a) !in f)
  }

  /** Adds a route per prefix, in order, tolerating routes that exist; stops at any other failure. */
  function RoutesAdded(main: map<Prefix, Dev>, dev: Dev, prefixes: seq<Prefix>, f: set<Cmd>): (map<Prefix, Dev>, bool)
    decreases prefixes
  {
    if prefixes == [] then (main, true)
    else if RouteAdd(prefixes[0], dev) in f then (main, false)
    else
      RoutesAdded(if prefixes[0] in main then main else main[prefixes[0] := dev], dev, prefixes[1..], f)
  }

  /** Existing routes stay as they are, new ones are for listed prefixes and through `dev`, and every
      listed prefix has a route unless adding one of them failed. */
  lemma {:induction false} RoutesAddedMeaning(main: map<Prefix, Dev>, dev: Dev, prefixes: seq<Prefix>, f: set<Cmd>)
    ensures var (after, ok) := RoutesAdded(main, dev, prefixes, f);
      && (forall p :: p in main ==> p in after && after[p] == main[p])
      && (forall p :: p in after && p !in main ==> p in prefixes && after[p] == dev)
      && (ok <==> forall p :: p in prefixes ==> RouteAdd(p, dev) !in f)
      && (ok ==> forall p :: p in prefixes ==> p in after)
    decreases prefixes
  {
    if prefixes != [] && RouteAdd(prefixes[0], dev) !in f {
      RoutesAddedMeaning(if prefixes[0] in main then main else main[prefixes[0] := dev], dev, prefixes[1..], f);
    }
  }

  function PeerApplied(t: Tunnel, dev: Dev, key: Key, allowed: seq<Prefix>, f: set<Cmd>): (Tunnel, bool) {
    if WgSet(dev, key, allowed) in f then (t, false)
    else
      var (main, ok) := RoutesAdded(t.main, dev, allowed, f);
      (Tunnel(SetAllowedIps(t.link, key, allowed), main), ok)
  }

  function OwnedBy(l: Link, key: Key): set<Prefix> {
    set p | p in l.owner && l.owner[p] == key
  }

  /** Of these prefixes, those whose route through the interface can be deleted. */
  function Deletable(main: map<Prefix, Dev>, dev: Dev, prefixes: set<Prefix>, f: set<Cmd>): set<Prefix> {
    set p | p in prefixes && p in main && main[p] == dev && RouteDel(p, dev) !in f
  }

  /** The routes that go when a set of peers is removed. */
  function LostWith(t: Tunnel, dev: Dev, gone: set<Key>, f: set<Cmd>): set<Prefix> {
    if AllowedShow(dev) in f then {}
    else Deletable(t.main, dev, (set p | p in t.link.owner && t.link.owner[p] in gone), f)
  }

  /** Removes a set of peers, and the routes of the prefixes those peers held. */
  function PeersRemoved(t: Tunnel, dev: Dev, gone: set<Key>, f: set<Cmd>): Tunnel {
    Tunnel(
      t.link.(
        peers := (set k | k in t.link.peers && !(k in gone && WgRemove(dev, k) !in f)),
        owner := map p | p in t.link.owner && !(t.link.owner[p] in gone && WgRemove(dev, t.link.owner[p]) !in f)
                   :: t.link.owner[p]),
      t.main - LostWith(t, dev, gone, f))
  }

  function RouteEnsured(main: map<Prefix, Dev>, p: Prefix, dev: Dev, f: set<Cmd>): (map<Prefix, Dev>, bool) {
    if RouteShow(p, dev) !in f && p in main && main[p] == dev then (main, true)
    else if RouteAdd(p, dev) in f then (main, false)
    else if p in main then (main, true)
    else (main[p := dev], true)
  }

  // ------------------------------------------------------------------ methods

  /** Creates the link unless it is seen to be there. `false` stands for the exception. */
  method EnsureInterface(k: Kernel, dev: Dev) returns (ok: bool)
    modifies k`links, k`states
    ensures (k.links, ok) == InterfaceEnsured(old(k.links), dev, k.faults)
    ensures ok ==> dev in k.links
    ensures old(k.states) <= k.states
    ensures forall i :: |old(k.states)| <= i < |k.states| ==> k.states[i] == k.Now()
  {
    var shown := k.Show(DevShow(dev));
    if shown && dev in k.links {
      return true;
    }
    var r := k.LinkAdd(dev);
    return r != Failed;
  }

  /** Gives the interface exactly these addresses without ever flushing it. In between it has every
      address that is there already and stays. */
  method SetAddresses(k: Kernel, dev: Dev, wanted: seq<Cidr>) returns (ok: bool)
    requires dev in k.links
    modifies k`links, k`states
    ensures ok == AddressesAfter(old(k.links)[dev].addrs, dev, wanted, k.faults).1
    ensures k.links == old(k.links)[dev := WithAddrs(old(k.links)[dev],
                                                     AddressesAfter(old(k.links)[dev].addrs, dev, wanted, k.faults).0)]
    ensures old(k.states) <= k.states
    ensures forall i :: |old(k.states)| <= i < |k.states| ==> AddressesHeld(old(k.Now()), dev, wanted, k.states[i])
  {
    var shown := k.Show(AddrShow(dev));
    var present: set<Cidr> := if shown then k.links[dev].addrs else {};
    ok := AddAddresses(k, dev, present, wanted);
    if !ok {
      return;
    }
    DropAddresses(k, dev, present, wanted);
    ok := k.Show(LinkUp(dev));
  }

  /** The first loop of `setAddresses`. */
  method AddAddresses(k: Kernel, dev: Dev, present: set<Cidr>, wanted: seq<Cidr>) returns (ok: bool)
    requires dev in k.links && present <= k.links[dev].addrs
    modifies k`links, k`states
    ensures ok == AddressesAdded(old(k.links)[dev].addrs, present, dev, wanted, k.faults).1
    ensures k.links == old(k.links)[dev := WithAddrs(old(k.links)[dev],
                                                     AddressesAdded(old(k.links)[dev].addrs, present, dev, wanted,
                                                                    k.faults).0)]
    ensures old(k.states) <= k.states
    ensures forall i :: |old(k.states)| <= i < |k.states| ==> AddressesHeld(old(k.Now()), dev, wanted, k.states[i])
  {
    ghost var now0, addrs0 := k.Now(), k.links[dev].addrs;
    assert now0.links == now0.links[dev := WithAddrs(now0.links[dev], addrs0)];
    for i := 0 to |wanted|
      invariant AddressesHeld(now0, dev, wanted, k.Now())
      invariant addrs0 <= k.links[dev].addrs
      invariant AddressesAdded(k.links[dev].addrs, present, dev, wanted[i..], k.faults)
             == AddressesAdded(addrs0, present, dev, wanted, k.faults)
      invariant old(k.states) <= k.states
      invariant forall j :: |old(k.states)| <= j < |k.states| ==> AddressesHeld(now0, dev, wanted, k.states[j])
    {
      assert wanted[i..][0] == wanted[i] && wanted[i..][1..] == wanted[i + 1..];
      if wanted[i] !in present {
        var r := k.AddrAdd(dev, wanted[i]);
        if r == Failed {
          return false;
        }
      }
    }
    ok := true;
  }

  /** The second loop of `setAddresses`. */
  method DropAddresses(k: Kernel, dev: Dev, present: set<Cidr>, wanted: seq<Cidr>)
    requires dev in k.links
    modifies k`links, k`states
    ensures k.links == old(k.links)[dev := WithAddrs(old(k.links)[dev],
                                                     AddressesDropped(old(k.links)[dev].addrs, present, dev, wanted,
                                                                      k.faults))]
    ensures old(k.states) <= k.states
    ensures forall i :: |old(k.states)| <= i < |k.states| ==> AddressesHeld(old(k.Now()), dev, wanted, k.states[i])
  {
    ghost var links0 := k.links;
    ghost var addrs := links0[dev].addrs;
    var todo := set a | a in present && a !in wanted;
    assert links0 == links0[dev := WithAddrs(links0[dev], addrs)];
    while todo != {}
      invariant todo <= set a | a in present && a !in wanted
      invariant k.links == links0[dev := WithAddrs(links0[dev], addrs)]
      invariant addrs <= links0[dev].addrs
      invariant forall a :: a in links0[dev].addrs ==>
                  (a in addrs <==> !(a in present && a !in wanted && a !in todo && AddrDel(dev, a) !in k.faults))
      invariant old(k.states) <= k.states
      invariant forall j :: |old(k.states)| <= j < |k.states| ==> AddressesHeld(old(k.Now()), dev, wanted, k.states[j])
      decreases todo
    {
      var a :| a in todo;
      k.AddrDel(dev, a);
      todo := todo - {a};
      if AddrDel(dev, a) !in k.faults {
        addrs := addrs - {a};
      }
    }
    assert addrs == AddressesDropped(links0[dev].addrs, present, dev, wanted, k.faults);
  }

  ghost predicate AddressesHeld(was: Net, dev: Dev, wanted: seq<Cidr>, s: Net)
    requires dev in was.links
  {
    && dev in s.links
    && s == was.(links := was.links[dev := WithAddrs(was.links[dev], s.links[dev].addrs)])
    && forall a :: a in was.links[dev].addrs && a in wanted ==> a in s.links[dev].addrs
  }

  /** Crypto routing only; adds no kernel route. */
  method SetPeerNoRoutes(k: Kernel, dev: Dev, key: Key, allowed: seq<Prefix>) returns (ok: bool)
    requires dev in k.links
    modifies k`links, k`states
    ensures ok == (WgSet(dev, key, allowed) !in k.faults)
    ensures k.links == if ok then old(k.links)[dev := SetAllowedIps(old(k.links)[dev], key, allowed)] else old(k.links)
    ensures k.states == old(k.states) + [k.Now()]
  {
    ok := k.WgSet(dev, key, allowed);
  }

  /** Crypto routing and a kernel route per prefix. */
  method SetPeer(k: Kernel, dev: Dev, key: Key, allowed: seq<Prefix>) returns (ok: bool)
    requires dev in k.links
    modifies k`links, k`main, k`states
    ensures ok == PeerApplied(Tunnel(old(k.links)[dev], old(k.main)), dev, key, allowed, k.faults).1
    ensures k.links == old(k.links)[dev := PeerApplied(Tunnel(old(k.links)[dev], old(k.main)), dev, key, allowed,
                                                       k.faults).0.link]
    ensures k.main == PeerApplied(Tunnel(old(k.links)[dev], old(k.main)), dev, key, allowed, k.faults).0.main
    ensures old(k.states) < k.states
    ensures forall i :: |old(k.states)| <= i < |k.states| ==>
              RoutesKept(old(k.Now()), k.states[i], {}) && k.states[i].links == k.links
  {
    ok := SetPeerNoRoutes(k, dev, key, allowed);
    if ok {
      ok := AddRoutes(k, dev, allowed);
    } else {
      assert k.links == old(k.links)[dev := old(k.links)[dev]];
    }
  }

  /** The loop of `setPeer`. */
  method AddRoutes(k: Kernel, dev: Dev, prefixes: seq<Prefix>) returns (ok: bool)
    modifies k`main, k`states
    ensures (k.main, ok) == RoutesAdded(old(k.main), dev, prefixes, k.faults)
    ensures old(k.states) <= k.states
    ensures forall i :: |old(k.states)| <= i < |k.states| ==>
              RoutesKept(old(k.Now()), k.states[i], {}) && k.states[i].links == k.links
  {
    ghost var main0 := k.main;
    for i := 0 to |prefixes|
      invariant RoutesAdded(k.main, dev, prefixes[i..], k.faults) == RoutesAdded(main0, dev, prefixes, k.faults)
      invariant forall p :: p in main0 ==> p in k.main && k.main[p] == main0[p]
      invariant old(k.states) <= k.states
      invariant forall j :: |old(k.states)| <= j < |k.states| ==>
                RoutesKept(old(k.Now()), k.states[j], {}) && k.states[j].links == k.links
    {
      var r := k.RouteAdd(prefixes[i], dev);
      if r == Failed {
        return false;
      }
    }
    ok := true;
  }

  /** The keys on the interface, in some order; nothing when `wg show` fails. */
  method ListPeers(k: Kernel, dev: Dev) returns (keys: seq<Key>)
    requires dev in k.links
    ensures (set x | x in keys) == if PeersShow(dev) in k.faults then {} else k.links[dev].peers
    ensures forall i, j :: 0 <= i < j < |keys| ==> keys[i] != keys[j]
  {
    keys := [];
    var shown := k.Show(PeersShow(dev));
    if shown {
      var todo := k.links[dev].peers;
      while todo != {}
        invariant (set x | x in keys) + todo == k.links[dev].peers
        invariant (set x | x in keys) !! todo
        invariant forall i, j :: 0 <= i < j < |keys| ==> keys[i] != keys[j]
        decreases todo
      {
        var x :| x in todo;
        todo, keys := todo - {x}, keys + [x];
      }
    }
  }

  /** Removes the peer, and the kernel routes of the prefixes it holds at that moment. */
  method RemovePeer(k: Kernel, dev: Dev, key: Key)
    requires dev in k.links
    modifies k`links, k`main, k`states
    ensures k.links == old(k.links)[dev := PeersRemoved(Tunnel(old(k.links)[dev], old(k.main)), dev, {key},
                                                        k.faults).link]
    ensures k.main == PeersRemoved(Tunnel(old(k.links)[dev], old(k.main)), dev, {key}, k.faults).main
    ensures Recorded(old(k.states), k.states, old(k.Now()), k.Now())
    ensures forall i :: |old(k.states)| <= i < |k.states| ==>
              && RoutesKept(old(k.Now()), k.states[i],
                            LostWith(Tunnel(old(k.links)[dev], old(k.main)), dev, {key}, k.faults))
              && k.states[i].links == k.links
  {
    ghost var want := PeersRemoved(Tunnel(k.links[dev], k.main), dev, {key}, k.faults);
    var shown := k.Show(AllowedShow(dev));
    var allowed := if shown then OwnedBy(k.links[dev], key) else {};
    k.WgRemove(dev, key);
    assert k.links[dev] == want.link;
    assert k.links == old(k.links)[dev := want.link];
    assert Deletable(k.main, dev, allowed, k.faults)
           == LostWith(Tunnel(old(k.links)[dev], k.main), dev, {key}, k.faults);
    DeleteRoutes(k, dev, allowed);
  }

  /** The loop of `removePeer`. */
  method DeleteRoutes(k: Kernel, dev: Dev, prefixes: set<Prefix>)
    modifies k`main, k`states
    ensures k.main == old(k.main) - Deletable(old(k.main), dev, prefixes, k.faults)
    ensures Recorded(old(k.states), k.states, old(k.Now()), k.Now())
    ensures forall i :: |old(k.states)| <= i < |k.states| ==>
              && RoutesKept(old(k.Now()), k.states[i], Deletable(old(k.main), dev, prefixes, k.faults))
              && k.states[i].links == k.links
  {
    ghost var main0 := k.main;
    var todo := prefixes;
    while todo != {}
      invariant todo <= prefixes
      invariant k.main == main0 - Deletable(main0, dev, prefixes - todo, k.faults)
      invariant Recorded(old(k.states), k.states, old(k.Now()), k.Now())
      invariant forall j :: |old(k.states)| <= j < |k.states| ==>
                  && RoutesKept(old(k.Now()), k.states[j], Deletable(main0, dev, prefixes, k.faults))
                  && k.states[j].links == k.links
      decreases todo
    {
      var p :| p in todo;
      k.RouteDel(p, dev);
      todo := todo - {p};
    }
    assert prefixes - todo == prefixes;
  }

  /** A route that belongs to the interface rather than to a peer. */
  method EnsureRoute(k: Kernel, p: Prefix, dev: Dev) returns (ok: bool)
    modifies k`main, k`states
    ensures (k.main, ok) == RouteEnsured(old(k.main), p, dev, k.faults)
    ensures old(k.states) <= k.states
    ensures forall i :: |old(k.states)| <= i < |k.states| ==> k.states[i] == k.Now()
  {
    var shown := k.Show(RouteShow(p, dev));
    if shown && p in k.main && k.main[p] == dev {
      return true;
    }
    var r := k.RouteAdd(p, dev);
    return r != Failed;
  }
}
