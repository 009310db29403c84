// Where the policy rules send a device's internet traffic, after applyExits with any commands failing.
module ExitSteering {
  import opened Wrappers
  import opened Ipv4
  import opened MeshAddressing
  import opened Kernel
  import opened MeshPlan
  import opened ExitPlan
  import opened ExitRules
  import opened ExitRouter

  const MAIN_TABLE: nat := 254

  /** The default route a rule's table offers, if it has one; otherwise the lookup goes on. */
  function RouteOf(net: Net, table: nat): Option<Dev> {
    if table == MAIN_TABLE then (if DEFAULT_ROUTE in net.main then Some(net.main[DEFAULT_ROUTE]) else None)
    else if table in net.tables then Some(net.tables[table])
    else None
  }

  predicate Hits(net: Net, r: IpRule, src: Addr) {
    Contains(r.from, src) && RouteOf(net, r.table).Some?
  }

  /** Policy routing of an internet packet from `src`: the first rule that matches and whose table has a
      default route. */
  function Lookup(net: Net, rules: seq<IpRule>, src: Addr): Option<Dev> {
    if rules == [] then None
    else if Hits(net, rules[0], src) then RouteOf(net, rules[0].table)
    else Lookup(net, rules[1..], src)
  }

  function ExitOf(net: Net, src: Addr): Option<Dev> { Lookup(net, net.rules, src) }

  /** An exit's table leads through that exit's interface or nowhere. */
  ghost predicate TablesOwned(tables: map<nat, Dev>) {
    forall n: nat :: TableFor(n) in tables ==> tables[TableFor(n)] == Exit(n)
  }

  /** The site a device exits through, if it chose one that can be used. */
  function SiteOf(c: Client, sites: seq<Site>, localSiteId: int): Option<Site> {
    var choice := ChoiceOf(c, sites, localSiteId);
    if choice.Through? then Some(choice.site) else None
  }

  /** All devices with this address chose alike: addresses are the devices' own. */
  ghost predicate OwnAddress(clients: seq<Client>, sites: seq<Site>, localSiteId: int, a: Addr, site: Option<Site>) {
    forall c :: c in clients && c.assignedIp == Some(a) ==> SiteOf(c, sites, localSiteId) == site
  }

  /** The directory numbers sites from 1 to 254. */
  predicate RosterIds(sites: seq<Site>) {
    forall s :: s in sites ==> MIN_SITE_ID <= s.siteId <= MAX_SITE_ID
  }

  lemma {:induction false} LookupHit(net: Net, rules: seq<IpRule>, src: Addr)
    requires Lookup(net, rules, src).Some?
    ensures exists r :: r in rules && Hits(net, r, src) && Lookup(net, rules, src) == RouteOf(net, r.table)
  {
    if !Hits(net, rules[0], src) {
      LookupHit(net, rules[1..], src);
    }
  }

  /** In a sorted list the deciding rule's priority is no higher than that of any rule that would do. */
  lemma {:induction false} LookupBefore(net: Net, rules: seq<IpRule>, src: Addr, r: IpRule)
    requires Sorted(rules) && r in rules && Hits(net, r, src)
    ensures exists w :: w in rules && Hits(net, w, src) && Lookup(net, rules, src) == RouteOf(net, w.table)
              && w.priority <= r.priority
  {
    var i :| 0 <= i < |rules| && rules[i] == r;
    if Hits(net, rules[0], src) {
      assert rules[0].priority <= r.priority;
    } else {
      LookupBefore(net, rules[1..], src, r);
    }
  }

  /** Raising exits points only their own tables at their own interfaces. */
  lemma {:induction false} RaisedTables(x: Exits, exits: seq<ExitSpec>, f: set<Cmd>)
    requires TablesOwned(x.tables) && forall e :: e in exits ==> OwnParameters(e)
    ensures TablesOwned(ExitsRaised(x, exits, f).tables)
    decreases exits
  {
    if exits != [] {
      assert OwnParameters(exits[0]);
      RaisedTables(ExitRaised(x, exits[0], f).0, exits[1..], f);
    }
  }

  /** `applyExits` keeps the tables in order and the rules sorted, and adds nothing to the main table. */
  lemma AppliedKeepsOrder(net: Net, plan: ExitPlan, f: set<Cmd>)
    requires TablesOwned(net.tables) && Sorted(net.rules) && forall e :: e in plan.exits ==> OwnParameters(e)
    ensures var after := ExitsApplied(net, plan, f);
      && TablesOwned(after.tables) && Sorted(after.rules)
      && forall p :: p in after.main ==> p in net.main && after.main[p] == net.main[p]
  {
    RaisedTables(Exits(net.links, net.tables), plan.exits, f);
    var installed := Installed(net.rules, f);
    DeletedSorted(net.rules, installed, plan.rules, f);
    AddedSorted(StaleDeleted(net.rules, installed, plan.rules, f), installed, plan.rules, f);
  }

  lemma {:induction false} ForeignMembers(rules: seq<IpRule>, r: IpRule)
    ensures r in ForeignOf(rules) <==> r in rules && !Managed(r)
  {
    if rules != [] {
      ForeignMembers(rules[1..], r);
    }
  }

  /** Every rule of the range that matches the address and is not planned can be seen and deleted. */
  predicate StaleGoes(rules: seq<IpRule>, planned: seq<IpRule>, f: set<Cmd>, a: Addr) {
    forall w :: w in rules && Managed(w) && Contains(w.from, a) && !HasPair(planned, w) ==>
      RuleShow !in f && RuleDel(w) !in f
  }

  /** Only planned rules of the range match an address after the diff exactly if the others could go. */
  lemma MatchingRulesArePlannedExactly(rules: seq<IpRule>, planned: seq<IpRule>, f: set<Cmd>, a: Addr)
    ensures (forall r :: r in RulesReconciled(rules, planned, f) && Managed(r) && Contains(r.from, a) ==>
              HasPair(planned, r)) <==> StaleGoes(rules, planned, f, a)
  {
    forall r
      ensures r in RulesReconciled(rules, planned, f) && Managed(r) && !HasPair(planned, r) <==>
                r in rules && Managed(r) && !HasPair(planned, r) && (RuleShow in f || RuleDel(r) in f)
    {
      ReconciledMembers(rules, planned, f, r);
      assert r in planned ==> SamePair(r, r);
    }
  }

  /** A managed rule that matches a device after the pass is that device's own rule. */
  lemma MatchingRuleIsOwn(net: Net, clients: seq<Client>, sites: seq<Site>, localSiteId: int, f: set<Cmd>, a: Addr,
                          site: Option<Site>, r: IpRule)
    requires RosterIds(sites) && OwnAddress(clients, sites, localSiteId, a, site)
    requires StaleGoes(net.rules, RulesOf(clients, sites, localSiteId), f, a)
    requires r in RulesReconciled(net.rules, RulesOf(clients, sites, localSiteId), f) && Managed(r)
              && Contains(r.from, a)
    ensures site.Some? && r.table == TableFor(site.value.siteId)
  {
    var planned := RulesOf(clients, sites, localSiteId);
    MatchingRulesArePlannedExactly(net.rules, planned, f, a);
    var w :| w in planned && SamePair(w, r);
    PlannedRuleIsOwn(clients, sites, localSiteId, a, site, w);
  }

  /** The rule that sends this address to this site. */
  function RuleAt(a: Addr, siteId: nat): IpRule {
    IpRule(PriorityFor(siteId), Host(a), TableFor(siteId))
  }

  predicate IsDevice(clients: seq<Client>, a: Addr) {
    exists c :: c in clients && c.assignedIp == Some(a)
  }

  lemma PlannedRuleIsOwn(clients: seq<Client>, sites: seq<Site>, localSiteId: int, a: Addr, site: Option<Site>,
                         w: IpRule)
    requires OwnAddress(clients, sites, localSiteId, a, site)
    requires w in RulesOf(clients, sites, localSiteId) && Contains(w.from, a)
    ensures site.Some? && w == RuleAt(a, site.value.siteId) && IsDevice(clients, a)
  {
    RulesFollowChoices(clients, sites, localSiteId, w, Unusable(None, 0, NoSuchSite));
    var c :| c in clients && SteeredTo(c, sites, localSiteId, w);
    assert Size(32) == 1 by {
      Sizes();
    }
    assert c.assignedIp == Some(a);
  }

  // ------------------------------------------- where the lookup ends, exactly

  /** Rules tried before the gateway's. */
  function Early(rules: seq<IpRule>): seq<IpRule> {
    if rules == [] then []
    else if rules[0].priority < RULE_PRIORITY_BASE then [rules[0]] + Early(rules[1..])
    else Early(rules[1..])
  }

  /** Without a managed rule that would do, the other rules decide as if they were alone. */
  lemma {:induction false} LookupSkipsManaged(net: Net, rules: seq<IpRule>, src: Addr)
    requires forall r :: r in rules && Managed(r) ==> !Hits(net, r, src)
    ensures Lookup(net, rules, src) == Lookup(net, ForeignOf(rules), src)
  {
    if rules != [] {
      LookupSkipsManaged(net, rules[1..], src);
      assert rules[0] in rules;
      var rest := ForeignOf(rules[1..]);
      assert ([rules[0]] + rest)[1..] == rest;
    }
  }

  /** If all managed rules that would do lead to `out`, and one would, only rules before them come first. */
  lemma {:induction false} LookupFindsManaged(net: Net, rules: seq<IpRule>, src: Addr, out: Option<Dev>)
    requires Sorted(rules) && out.Some?
    requires forall r :: r in rules && Managed(r) && Hits(net, r, src) ==> RouteOf(net, r.table) == out
    requires exists r :: r in rules && Managed(r) && Hits(net, r, src)
    ensures var early := Lookup(net, Early(ForeignOf(rules)), src);
            Lookup(net, rules, src) == if early.Some? then early else out
  {
    var r := rules[0];
    var rest := ForeignOf(rules[1..]);
    assert r in rules;
    if Managed(r) {
      if Hits(net, r, src) {
        LateForeign(rules[1..], r.priority);
      } else {
        LookupFindsManaged(net, rules[1..], src, out);
      }
    } else {
      assert ForeignOf(rules) == [r] + rest;
      assert ([r] + rest)[1..] == rest;
      var m :| m in rules && Managed(m) && Hits(net, m, src);
      var j :| 0 <= j < |rules| && rules[j] == m;
      assert r.priority <= rules[j].priority;
      assert Early(ForeignOf(rules)) == [r] + Early(rest);
      assert ([r] + Early(rest))[1..] == Early(rest);
      if !Hits(net, r, src) {
        assert m in rules[1..];
        LookupFindsManaged(net, rules[1..], src, out);
      }
    }
  }

  /** Behind a rule of the range nothing is early. */
  lemma {:induction false} LateForeign(rules: seq<IpRule>, n: nat)
    requires n >= RULE_PRIORITY_BASE && forall r :: r in rules ==> r.priority >= n
    ensures Early(ForeignOf(rules)) == []
  {
    if rules != [] {
      assert rules[0] in rules;
      LateForeign(rules[1..], n);
      var rest := ForeignOf(rules[1..]);
      assert ([rules[0]] + rest)[1..] == rest;
    }
  }

  /** Whether the address is steered after the pass: a device of that address chose a usable site, whose table
      has a route then, and the rule is installed or can be. */
  ghost predicate Steered(net: Net, clients: seq<Client>, sites: seq<Site>, localSiteId: int, f: set<Cmd>, a: Addr,
                          site: Option<Site>) {
    && site.Some? && IsDevice(clients, a)
    && RouteOf(ExitsApplied(net, PlanOfExits(clients, sites, localSiteId), f), TableFor(site.value.siteId)).Some?
    && (HasPair(ManagedOf(net.rules), RuleAt(a, site.value.siteId)) || RuleAdd(RuleAt(a, site.value.siteId)) !in f)
  }

  /** Where internet traffic of any address goes after a pass, whichever exits and rules fail to come up: first
      by the rules of smaller priority number, then through the chosen exit if the address is steered, and
      otherwise by the rules outside the range alone, down to the main table. */
  lemma SteeringIsExact(net: Net, clients: seq<Client>, sites: seq<Site>, localSiteId: int, f: set<Cmd>, a: Addr,
                        site: Option<Site>)
    requires TablesOwned(net.tables) && Sorted(net.rules) && RosterIds(sites)
    requires OwnAddress(clients, sites, localSiteId, a, site)
    requires StaleGoes(net.rules, RulesOf(clients, sites, localSiteId), f, a)
    ensures var after := ExitsApplied(net, PlanOfExits(clients, sites, localSiteId), f);
            var early := Lookup(after, Early(ForeignOf(net.rules)), a);
      ExitOf(after, a) ==
        if !Steered(net, clients, sites, localSiteId, f, a, site) then Lookup(after, ForeignOf(net.rules), a)
        else if early.Some? then early
        else Some(Exit(site.value.siteId))
  {
    PlannedAreManaged(clients, sites, localSiteId);
    ForeignRulesStay(net.rules, RulesOf(clients, sites, localSiteId), f);
    if Steered(net, clients, sites, localSiteId, f, a, site) {
      SteeredFindOwn(net, clients, sites, localSiteId, f, a, site);
    } else {
      var after := ExitsApplied(net, PlanOfExits(clients, sites, localSiteId), f);
      forall w | w in after.rules && Managed(w) ensures !Hits(after, w, a) {
        if Hits(after, w, a) {
          HitIsSteered(net, clients, sites, localSiteId, f, a, site, w);
        }
      }
      LookupSkipsManaged(after, after.rules, a);
    }
  }

  lemma SteeredFindOwn(net: Net, clients: seq<Client>, sites: seq<Site>, localSiteId: int, f: set<Cmd>, a: Addr,
                       site: Option<Site>)
    requires TablesOwned(net.tables) && Sorted(net.rules) && RosterIds(sites)
    requires OwnAddress(clients, sites, localSiteId, a, site)
    requires StaleGoes(net.rules, RulesOf(clients, sites, localSiteId), f, a)
    requires Steered(net, clients, sites, localSiteId, f, a, site)
    ensures var after := ExitsApplied(net, PlanOfExits(clients, sites, localSiteId), f);
            var early := Lookup(after, Early(ForeignOf(after.rules)), a);
      ExitOf(after, a) == if early.Some? then early else Some(Exit(site.value.siteId))
  {
    var plan := PlanOfExits(clients, sites, localSiteId);
    var after := ExitsApplied(net, plan, f);
    ExitsAreTheChosen(clients, sites, localSiteId);
    AppliedKeepsOrder(net, plan, f);
    var c :| c in clients && c.assignedIp == Some(a);
    var r := OwnRuleInstalled(net, clients, sites, localSiteId, f, c, a, site.value);
    assert Size(32) == 1 by {
      Sizes();
    }
    assert Hits(after, r, a);
    forall w | w in after.rules && Managed(w) && Hits(after, w, a)
      ensures RouteOf(after, w.table) == Some(Exit(site.value.siteId))
    {
      MatchingRuleIsOwn(net, clients, sites, localSiteId, f, a, site, w);
    }
    LookupFindsManaged(after, after.rules, a, Some(Exit(site.value.siteId)));
  }

  lemma HitIsSteered(net: Net, clients: seq<Client>, sites: seq<Site>, localSiteId: int, f: set<Cmd>, a: Addr,
                     site: Option<Site>, w: IpRule)
    requires RosterIds(sites) && OwnAddress(clients, sites, localSiteId, a, site)
    requires StaleGoes(net.rules, RulesOf(clients, sites, localSiteId), f, a)
    requires var after := ExitsApplied(net, PlanOfExits(clients, sites, localSiteId), f);
             w in after.rules && Managed(w) && Hits(after, w, a)
    ensures Steered(net, clients, sites, localSiteId, f, a, site)
  {
    var planned := RulesOf(clients, sites, localSiteId);
    MatchingRulesArePlannedExactly(net.rules, planned, f, a);
    var v :| v in planned && SamePair(v, w);
    PlannedRuleIsOwn(clients, sites, localSiteId, a, site, v);
    ReconciledMembers(net.rules, planned, f, w);
    if w in net.rules {
      ManagedMembers(net.rules, w);
      assert SamePair(w, v);
    } else {
      PlannedRuleIsOwn(clients, sites, localSiteId, a, site, w);
    }
  }

  /** A device that chose no usable exit, or whose exit has no route, or whose rule could not be added, goes by
      the rules outside the range. */
  lemma FallsThrough(net: Net, clients: seq<Client>, sites: seq<Site>, localSiteId: int, f: set<Cmd>, a: Addr,
                     site: Option<Site>)
    requires TablesOwned(net.tables) && Sorted(net.rules) && RosterIds(sites)
    requires OwnAddress(clients, sites, localSiteId, a, site)
    requires StaleGoes(net.rules, RulesOf(clients, sites, localSiteId), f, a)
    requires !Steered(net, clients, sites, localSiteId, f, a, site)
    ensures var after := ExitsApplied(net, PlanOfExits(clients, sites, localSiteId), f);
            ExitOf(after, a) == Lookup(after, ForeignOf(net.rules), a)
  {
    SteeringIsExact(net, clients, sites, localSiteId, f, a, site);
  }

  /** The first of these rules that would do is `r`. */
  ghost predicate FirstHit(net: Net, rules: seq<IpRule>, src: Addr, r: IpRule) {
    exists i :: 0 <= i < |rules| && rules[i] == r && Hits(net, r, src)
      && forall j :: 0 <= j < i ==> !Hits(net, rules[j], src)
  }

  lemma {:induction false} FirstHitDecides(net: Net, rules: seq<IpRule>, src: Addr, r: IpRule)
    requires FirstHit(net, rules, src, r)
    ensures Lookup(net, rules, src) == RouteOf(net, r.table)
  {
    var i :| 0 <= i < |rules| && rules[i] == r && Hits(net, r, src)
      && forall j :: 0 <= j < i ==> !Hits(net, rules[j], src);
    if i > 0 {
      assert !Hits(net, rules[0], src);
      assert rules[1..][i - 1] == r && forall j :: 0 <= j < i - 1 ==> rules[1..][j] == rules[j + 1];
      FirstHitDecides(net, rules[1..], src, r);
    }
  }

  /** Such a device leaves by the main table's default route, which exits never change as long as it is not
      through one of them, when the main table's rule is the first outside the range that would do. */
  lemma FallsThroughToMain(net: Net, clients: seq<Client>, sites: seq<Site>, localSiteId: int, f: set<Cmd>, a: Addr,
                           site: Option<Site>, r: IpRule)
    requires TablesOwned(net.tables) && Sorted(net.rules) && RosterIds(sites)
    requires OwnAddress(clients, sites, localSiteId, a, site)
    requires StaleGoes(net.rules, RulesOf(clients, sites, localSiteId), f, a)
    requires !Steered(net, clients, sites, localSiteId, f, a, site)
    requires DEFAULT_ROUTE in net.main && !net.main[DEFAULT_ROUTE].Exit? && r.table == MAIN_TABLE
    requires FirstHit(ExitsApplied(net, PlanOfExits(clients, sites, localSiteId), f), ForeignOf(net.rules), a, r)
    ensures ExitOf(ExitsApplied(net, PlanOfExits(clients, sites, localSiteId), f), a) == Some(net.main[DEFAULT_ROUTE])
  {
    var after := ExitsApplied(net, PlanOfExits(clients, sites, localSiteId), f);
    FallsThrough(net, clients, sites, localSiteId, f, a, site);
    FirstHitDecides(after, ForeignOf(net.rules), a, r);
  }

  /** In a sorted list the early rules are tried first. */
  lemma {:induction false} EarlyDecide(net: Net, rules: seq<IpRule>, src: Addr)
    requires Sorted(rules) && Lookup(net, Early(rules), src).Some?
    ensures Lookup(net, rules, src) == Lookup(net, Early(rules), src)
  {
    var r := rules[0];
    if r.priority < RULE_PRIORITY_BASE {
      assert ([r] + Early(rules[1..]))[1..] == Early(rules[1..]);
      if !Hits(net, r, src) {
        EarlyDecide(net, rules[1..], src);
      }
    } else {
      assert forall i :: 0 <= i < |rules| ==> rules[i].priority >= RULE_PRIORITY_BASE;
      NoneEarly(rules);
      assert false;
    }
  }

  lemma {:induction false} NoneEarly(rules: seq<IpRule>)
    requires forall i :: 0 <= i < |rules| ==> rules[i].priority >= RULE_PRIORITY_BASE
    ensures Early(rules) == []
  {
    if rules != [] {
      NoneEarly(rules[1..]);
    }
  }

  lemma {:induction false} ForeignSorted(rules: seq<IpRule>)
    requires Sorted(rules)
    ensures Sorted(ForeignOf(rules))
  {
    if rules != [] {
      ForeignSorted(rules[1..]);
      var rest := ForeignOf(rules[1..]);
      forall r | r in rest ensures rules[0].priority <= r.priority {
        ForeignMembers(rules[1..], r);
        var i :| 0 <= i < |rules[1..]| && rules[1..][i] == r;
        assert rules[i + 1] == r;
      }
    }
  }

  /** Whichever exits and rules fail to come up, a device never leaves through a site it did not choose:
      its traffic takes the exit it chose, or goes as the rules outside the range alone would have it. */
  lemma NeverThroughAnotherSite(net: Net, clients: seq<Client>, sites: seq<Site>, localSiteId: int, f: set<Cmd>,
                                a: Addr, site: Option<Site>)
    requires TablesOwned(net.tables) && Sorted(net.rules) && RosterIds(sites)
    requires OwnAddress(clients, sites, localSiteId, a, site)
    requires StaleGoes(net.rules, RulesOf(clients, sites, localSiteId), f, a)
    ensures var after := ExitsApplied(net, PlanOfExits(clients, sites, localSiteId), f);
            var out := ExitOf(after, a);
      out == Lookup(after, ForeignOf(net.rules), a) || (site.Some? && out == Some(Exit(site.value.siteId)))
  {
    var after := ExitsApplied(net, PlanOfExits(clients, sites, localSiteId), f);
    SteeringIsExact(net, clients, sites, localSiteId, f, a, site);
    ForeignSorted(net.rules);
    if Lookup(after, Early(ForeignOf(net.rules)), a).Some? {
      EarlyDecide(after, ForeignOf(net.rules), a);
    }
  }

  lemma PlannedAreManaged(clients: seq<Client>, sites: seq<Site>, localSiteId: int)
    requires RosterIds(sites)
    ensures forall r :: r in RulesOf(clients, sites, localSiteId) ==> Managed(r)
  {
    forall r | r in RulesOf(clients, sites, localSiteId) ensures Managed(r) {
      RulesFollowChoices(clients, sites, localSiteId, r, Unusable(None, 0, NoSuchSite));
      var c :| c in clients && SteeredTo(c, sites, localSiteId, r);
      RowMeaning(sites, c.exitSiteId.value);
    }
  }

  /** If moreover no rule outside the range leads into an exit interface, the only exit a device can ever
      leave through is the one it chose. */
  lemma OnlyTheChosenExit(net: Net, clients: seq<Client>, sites: seq<Site>, localSiteId: int, f: set<Cmd>, a: Addr,
                          site: Option<Site>, n: nat)
    requires TablesOwned(net.tables) && Sorted(net.rules) && RosterIds(sites)
    requires OwnAddress(clients, sites, localSiteId, a, site)
    requires StaleGoes(net.rules, RulesOf(clients, sites, localSiteId), f, a)
    requires var after := ExitsApplied(net, PlanOfExits(clients, sites, localSiteId), f);
      && (forall r :: r in ForeignOf(net.rules) && Contains(r.from, a) ==> RouteOf(after, r.table) != Some(Exit(n)))
      && ExitOf(after, a) == Some(Exit(n))
    ensures site.Some? && site.value.siteId == n
  {
    var after := ExitsApplied(net, PlanOfExits(clients, sites, localSiteId), f);
    NeverThroughAnotherSite(net, clients, sites, localSiteId, f, a, site);
    if ExitOf(after, a) == Lookup(after, ForeignOf(net.rules), a) {
      LookupHit(after, ForeignOf(net.rules), a);
    }
  }

  // ------------------------------------------------------- the exit is reached

  /** None of the commands an exit cannot do without fails. */
  predicate ComesUp(e: ExitSpec, f: set<Cmd>) {
    && LinkAdd(e.iface) !in f && WgKey(e.iface) !in f && LinkUp(e.iface) !in f
    && WgSet(e.iface, e.publicKey, e.allowedIPs) !in f && TableDefault(e.table, e.iface) !in f
  }

  /** Other exits leave an exit's interface and table alone. */
  lemma {:induction false} RaisedApart(x: Exits, exits: seq<ExitSpec>, f: set<Cmd>, e: ExitSpec)
    requires forall d :: d in exits ==> OwnParameters(d) && d.siteId != e.siteId
    requires OwnParameters(e)
    ensures var y := ExitsRaised(x, exits, f);
      && (e.iface in y.links <==> e.iface in x.links) && (e.iface in x.links ==> y.links[e.iface] == x.links[e.iface])
      && (e.table in y.tables <==> e.table in x.tables)
         && (e.table in x.tables ==> y.tables[e.table] == x.tables[e.table])
    decreases exits
  {
    if exits != [] {
      assert OwnParameters(exits[0]) && exits[0].siteId != e.siteId;
      RaisedApart(ExitRaised(x, exits[0], f).0, exits[1..], f, e);
    }
  }

  lemma {:induction false} RaisedExitIsUp(x: Exits, exits: seq<ExitSpec>, f: set<Cmd>, e: ExitSpec)
    requires e in exits && DistinctExits(exits) && forall d :: d in exits ==> OwnParameters(d)
    requires ComesUp(e, f)
    ensures IsUp(ExitsRaised(x, exits, f), e)
    decreases exits
  {
    var next := ExitRaised(x, exits[0], f).0;
    assert forall j :: 0 <= j < |exits| - 1 ==> exits[1..][j] == exits[j + 1];
    if exits[0] == e {
      assert IsUp(next, e);
      RaisedApart(next, exits[1..], f, e);
    } else {
      RaisedExitIsUp(next, exits[1..], f, e);
    }
  }

  /** A device whose exit is usable and comes up leaves through that site's interface, to that site's
      gateway, provided its rule can be added and no rule of smaller priority number claims it first. */
  lemma ReachesItsExit(net: Net, clients: seq<Client>, sites: seq<Site>, localSiteId: int, f: set<Cmd>, c: Client,
                       a: Addr, site: Site)
    requires TablesOwned(net.tables) && Sorted(net.rules) && RosterIds(sites)
    requires c in clients && c.assignedIp == Some(a) && SiteOf(c, sites, localSiteId) == Some(site)
    requires OwnAddress(clients, sites, localSiteId, a, Some(site))
    requires StaleGoes(net.rules, RulesOf(clients, sites, localSiteId), f, a)
    requires HasPair(ManagedOf(net.rules), RuleFor(c, site.siteId)) || RuleAdd(RuleFor(c, site.siteId)) !in f
    requires ComesUp(SpecOf(site), f)
    requires var after := ExitsApplied(net, PlanOfExits(clients, sites, localSiteId), f);
             forall r :: r in ForeignOf(net.rules) && r.priority < RULE_PRIORITY_BASE ==> !Hits(after, r, a)
    ensures var after := ExitsApplied(net, PlanOfExits(clients, sites, localSiteId), f);
      && ExitOf(after, a) == Some(Exit(site.siteId))
      && Exit(site.siteId) in after.links
      && DEFAULT_ROUTE in after.links[Exit(site.siteId)].owner
      && after.links[Exit(site.siteId)].owner[DEFAULT_ROUTE] == site.gatewayPublicKey
  {
    var plan := PlanOfExits(clients, sites, localSiteId);
    var after := ExitsApplied(net, plan, f);
    var e := SpecOf(site);
    ExitsAreTheChosen(clients, sites, localSiteId);
    assert ChosenAs(c, sites, localSiteId, e);
    AppliedKeepsOrder(net, plan, f);
    RaisedExitIsUp(Exits(net.links, net.tables), plan.exits, f, e);
    WantedExitsStay(net, plan, f, e);
    var r := OwnRuleInstalled(net, clients, sites, localSiteId, f, c, a, site);
    Sizes();
    LookupBefore(after, after.rules, a, r);
    var w :| w in after.rules && Hits(after, w, a) && ExitOf(after, a) == RouteOf(after, w.table)
      && w.priority <= r.priority;
    if Managed(w) {
      MatchingRuleIsOwn(net, clients, sites, localSiteId, f, a, Some(site), w);
    } else {
      PlannedAreManaged(clients, sites, localSiteId);
      ForeignRulesStay(net.rules, plan.rules, f);
      ForeignMembers(after.rules, w);
      assert false;
    }
  }

  /** Tearing down the abandoned exits leaves the wanted ones up. */
  lemma WantedExitsStay(net: Net, plan: ExitPlan, f: set<Cmd>, e: ExitSpec)
    requires e in plan.exits && OwnParameters(e) && IsUp(ExitsRaised(Exits(net.links, net.tables), plan.exits, f), e)
    ensures var after := ExitsApplied(net, plan, f); IsUp(Exits(after.links, after.tables), e)
  {
    assert HasExit(plan.exits, e.siteId);
  }

  lemma OwnRuleInstalled(net: Net, clients: seq<Client>, sites: seq<Site>, localSiteId: int, f: set<Cmd>, c: Client,
                         a: Addr, site: Site) returns (r: IpRule)
    requires RosterIds(sites)
    requires c in clients && c.assignedIp == Some(a) && SiteOf(c, sites, localSiteId) == Some(site)
    requires HasPair(ManagedOf(net.rules), RuleFor(c, site.siteId)) || RuleAdd(RuleFor(c, site.siteId)) !in f
    ensures r in RulesReconciled(net.rules, RulesOf(clients, sites, localSiteId), f)
    ensures Managed(r) && r.from == Host(a) && r.table == TableFor(site.siteId)
  {
    var planned := RulesOf(clients, sites, localSiteId);
    var mine := RuleFor(c, site.siteId);
    RulesFollowChoices(clients, sites, localSiteId, mine, Unusable(None, 0, NoSuchSite));
    assert SteeredTo(c, sites, localSiteId, mine);
    if HasPair(ManagedOf(net.rules), mine) {
      r :| r in ManagedOf(net.rules) && SamePair(r, mine);
      ManagedMembers(net.rules, r);
      assert HasPair(planned, r) by { assert SamePair(mine, r); }
      ReconciledMembers(net.rules, planned, f, r);
    } else {
      r := mine;
      PlannedAreManaged(clients, sites, localSiteId);
      ReconciledMembers(net.rules, planned, f, r);
    }
  }

  // ------------------------------------------------- in the documents' fields

  /** All devices with this address ask for the same exit. */
  ghost predicate AskAlike(clients: seq<Client>, a: Addr, c: Client) {
    && c in clients && c.assignedIp == Some(a)
    && forall b :: b in clients && b.assignedIp == Some(a) ==> b.exitSiteId == c.exitSiteId
  }

  lemma AskedSite(clients: seq<Client>, sites: seq<Site>, localSiteId: int, c: Client, a: Addr)
    requires AskAlike(clients, a, c)
    ensures OwnAddress(clients, sites, localSiteId, a, SiteOf(c, sites, localSiteId))
  {
  }

  /** The internet traffic of a device that asks for another site with a key and an endpoint leaves through that site's
      interface, to the gateway with the key of the site's last roster row, if the commands for it work and no
      rule with a priority below 3000 takes it elsewhere. */
  lemma ExitAsAsked(net: Net, clients: seq<Client>, sites: seq<Site>, localSiteId: int, f: set<Cmd>, c: Client, a: Addr,
                    n: nat, i: int)
    requires TablesOwned(net.tables) && Sorted(net.rules) && RosterIds(sites) && AskAlike(clients, a, c)
    requires AsksFor(c, sites, localSiteId, n, i) && ComesUp(SpecOf(sites[i]), f)
    requires StaleGoes(net.rules, RulesOf(clients, sites, localSiteId), f, a)
    requires RuleAdd(IpRule(3000 + n, Prefix(a, 32), 2400 + n)) !in f
    requires var after := ExitsApplied(net, PlanOfExits(clients, sites, localSiteId), f);
             forall r :: r in net.rules && r.priority < 3000 ==> !Hits(after, r, a)
    ensures var after := ExitsApplied(net, PlanOfExits(clients, sites, localSiteId), f);
      && ExitOf(after, a) == Some(Exit(n))
      && Exit(n) in after.links && Prefix(0, 0) in after.links[Exit(n)].owner
      && after.links[Exit(n)].owner[Prefix(0, 0)] == sites[i].gatewayPublicKey
  {
    ThroughExactly(c, sites, localSiteId, sites[i]);
    AskedSite(clients, sites, localSiteId, c, a);
    forall r | r in ForeignOf(net.rules) ensures r in net.rules {
      ForeignMembers(net.rules, r);
    }
    ReachesItsExit(net, clients, sites, localSiteId, f, c, a, sites[i]);
  }

  /** The internet traffic of any other device goes as the rules with priorities below 3000 and above 3254 alone have
      it, which are those of before. */
  lemma GoesAsTheHost(net: Net, clients: seq<Client>, sites: seq<Site>, localSiteId: int, f: set<Cmd>, c: Client,
                      a: Addr)
    requires TablesOwned(net.tables) && Sorted(net.rules) && RosterIds(sites) && AskAlike(clients, a, c)
    requires forall n: nat, i :: !AsksFor(c, sites, localSiteId, n, i)
    requires StaleGoes(net.rules, RulesOf(clients, sites, localSiteId), f, a)
    ensures var after := ExitsApplied(net, PlanOfExits(clients, sites, localSiteId), f);
            ExitOf(after, a) == Lookup(after, Outside(net.rules), a)
  {
    if ChoiceOf(c, sites, localSiteId).Through? {
      ThroughExactly(c, sites, localSiteId, ChoiceOf(c, sites, localSiteId).site);
    }
    AskedSite(clients, sites, localSiteId, c, a);
    FallsThrough(net, clients, sites, localSiteId, f, a, None);
    OutsideIsForeign(net.rules);
  }

  /** The table of an exit that does not come up is left as it was. */
  lemma {:induction false} FailedExitKeepsTable(x: Exits, exits: seq<ExitSpec>, f: set<Cmd>, e: ExitSpec)
    requires OwnExits(exits) && e in exits && !CanRaise(x.links, e, f)
    ensures var y := ExitsRaised(x, exits, f);
      && (e.table in y.tables <==> e.table in x.tables)
      && (e.table in x.tables ==> y.tables[e.table] == x.tables[e.table])
    decreases exits
  {
    var next := ExitRaised(x, exits[0], f).0;
    RaisedExactly(x, exits[0], f);
    assert forall j :: 0 <= j < |exits| - 1 ==> exits[1..][j] == exits[j + 1];
    if exits[0] == e {
      RaisedApart(next, exits[1..], f, e);
    } else {
      ApartFromOthers(exits, exits[0], e);
      FailedExitKeepsTable(next, exits[1..], f, e);
    }
  }
}
