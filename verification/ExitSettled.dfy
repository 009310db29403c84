// What applyExits leaves behind, and that a further pass finds nothing to do.
module ExitSettled {
  import opened Ipv4
  import opened Kernel
  import opened WgIface
  import opened MeshPlan
  import opened ExitPlan
  import opened ExitRules
  import opened ExitRouter
  import opened ExitSteering

  /** The rules of the range that select this table can be seen and deleted. */
  predicate TableRulesGo(rules: seq<IpRule>, n: nat, f: set<Cmd>) {
    forall w :: w in rules && Managed(w) && w.table == TableFor(n) ==> RuleShow !in f && RuleDel(w) !in f
  }

  /** No exit link goes away while a rule of the gateway still selects its table: at any moment of a pass
      at which one is missing, no managed rule points there, exactly if those of before could be deleted. */
  lemma NoRuleSelectsAMissingExit(was: Net, s: Net, clients: seq<Client>, sites: seq<Site>, localSiteId: int,
                                  f: set<Cmd>, n: nat)
    requires Orderly(was, s, PlanOfExits(clients, sites, localSiteId), f)
    requires Exit(n) in was.links && Exit(n) !in s.links
    ensures (forall r :: r in s.rules && Managed(r) ==> r.table != TableFor(n)) <==> TableRulesGo(was.rules, n, f)
  {
    var plan := PlanOfExits(clients, sites, localSiteId);
    forall w | HasPair(plan.rules, w) ensures w.table != TableFor(n) {
      PlannedTablesHaveExits(clients, sites, localSiteId, w, n);
    }
    forall r
      ensures r in s.rules && Managed(r) && r.table == TableFor(n) <==>
                r in was.rules && Managed(r) && r.table == TableFor(n) && (RuleShow in f || RuleDel(r) in f)
    {
      ReconciledMembers(was.rules, plan.rules, f, r);
      assert r in plan.rules ==> SamePair(r, r);
    }
  }

  lemma PlannedTablesHaveExits(clients: seq<Client>, sites: seq<Site>, localSiteId: int, r: IpRule, n: nat)
    requires var plan := PlanOfExits(clients, sites, localSiteId); HasPair(plan.rules, r) && !HasExit(plan.exits, n)
    ensures r.table != TableFor(n)
  {
    var plan := PlanOfExits(clients, sites, localSiteId);
    RulesAreTheChosen(clients, sites, localSiteId);
    ExitsAreTheChosen(clients, sites, localSiteId);
    var w :| w in plan.rules && SamePair(w, r);
    var e :| e in plan.exits && w.table == e.table && w.priority == PriorityFor(e.siteId);
  }

  /** This exit is as its plan wants it, down to the addresses. */
  predicate ExitInPlace(x: Exits, e: ExitSpec) {
    && e.iface in x.links && x.links[e.iface].addrs == {}
    && SetAllowedIps(x.links[e.iface], e.publicKey, e.allowedIPs) == x.links[e.iface]
    && e.table in x.tables && x.tables[e.table] == e.iface
  }

  ghost predicate ExitsSettled(net: Net, plan: ExitPlan) {
    && (forall e :: e in plan.exits ==> ExitInPlace(Exits(net.links, net.tables), e))
    && RulesSettled(net.rules, plan.rules)
    && (forall n: nat :: Exit(n) in net.links ==> HasExit(plan.exits, n))
  }

  lemma SetTwice(l: Link, key: Key, allowed: seq<Prefix>)
    ensures var once := SetAllowedIps(l, key, allowed); SetAllowedIps(once, key, allowed) == once
  {
  }

  lemma RaisedIsInPlace(x: Exits, e: ExitSpec)
    ensures ExitInPlace(ExitRaised(x, e, {}).0, e)
  {
    var links := InterfaceEnsured(x.links, e.iface, {}).0;
    var addrs := AddressesAfter(links[e.iface].addrs, e.iface, [], {}).0;
    assert addrs == {};
    SetTwice(WithAddrs(links[e.iface], addrs), e.publicKey, e.allowedIPs);
  }

  lemma {:induction false} AllRaisedAreInPlace(x: Exits, exits: seq<ExitSpec>, e: ExitSpec)
    requires e in exits && DistinctExits(exits) && forall d :: d in exits ==> OwnParameters(d)
    ensures ExitInPlace(ExitsRaised(x, exits, {}), e)
    decreases exits
  {
    var next := ExitRaised(x, exits[0], {}).0;
    assert forall j :: 0 <= j < |exits| - 1 ==> exits[1..][j] == exits[j + 1];
    if exits[0] == e {
      RaisedIsInPlace(x, e);
      RaisedApart(next, exits[1..], {}, e);
    } else {
      AllRaisedAreInPlace(next, exits[1..], e);
    }
  }

  lemma PassSettlesExits(net: Net, plan: ExitPlan)
    requires DistinctExits(plan.exits) && forall e :: e in plan.exits ==> OwnParameters(e)
    ensures ExitsSettled(ExitsApplied(net, plan, {}), plan)
  {
    var up := ExitsRaised(Exits(net.links, net.tables), plan.exits, {});
    var after := ExitsApplied(net, plan, {});
    PassSettlesRules(net.rules, plan.rules);
    forall e | e in plan.exits ensures ExitInPlace(Exits(after.links, after.tables), e) {
      AllRaisedAreInPlace(Exits(net.links, net.tables), plan.exits, e);
      assert HasExit(plan.exits, e.siteId);
    }
    forall n: nat | Exit(n) in after.links ensures HasExit(plan.exits, n) {
      assert Exit(n) in up.links;
      assert n !in Abandoned(up.links, plan.exits, {});
    }
  }

  lemma LinkInPlaceStays(x: Exits, e: ExitSpec, f: set<Cmd>)
    requires ExitInPlace(x, e)
    ensures ExitRaised(x, e, f).0 == x
  {
    var l := x.links[e.iface];
    assert AddressesAfter({}, e.iface, [], f).0 == {} by {
      assert AddressesDropped({}, {}, e.iface, [], f) == {};
    }
    assert WithAddrs(l, {}) == l;
    assert LinkRaised(l, e, f).0 == l;
    assert x.links[e.iface := l] == x.links;
    assert x.tables[e.table := e.iface] == x.tables;
  }

  lemma {:induction false} InPlaceStays(x: Exits, exits: seq<ExitSpec>, f: set<Cmd>)
    requires forall e :: e in exits ==> ExitInPlace(x, e)
    ensures ExitsRaised(x, exits, f) == x
    decreases exits
  {
    if exits != [] {
      assert ExitInPlace(x, exits[0]);
      LinkInPlaceStays(x, exits[0], f);
      InPlaceStays(x, exits[1..], f);
    }
  }

  /** Once settled, a pass changes nothing exactly when it can read the rules back, or would add none anew,
      whatever else fails in it. */
  lemma SettledExitsStayExactly(net: Net, plan: ExitPlan, f: set<Cmd>)
    requires ExitsSettled(net, plan)
    ensures ExitsApplied(net, plan, f) == net <==> RereadOrIdle(net.rules, plan.rules, f)
  {
    InPlaceStays(Exits(net.links, net.tables), plan.exits, f);
    SettledRulesStayExactly(net.rules, plan.rules, f);
    assert Abandoned(net.links, plan.exits, f) == {};
    var ruled := net.(rules := RulesReconciled(net.rules, plan.rules, f));
    DropNone(ruled, f);
  }
}
