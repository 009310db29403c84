// Which device exits where (planExits in services/exit_router.js).
module ExitPlan {
  import opened Wrappers
  import opened Ipv4
  import opened Kernel
  import opened MeshPlan

  const TABLE_BASE: nat := 2400
  const RULE_PRIORITY_BASE: nat := 3000

  function TableFor(siteId: nat): nat { TABLE_BASE + siteId }
  function PriorityFor(siteId: nat): nat { RULE_PRIORITY_BASE + siteId }

  /** One exit: an interface of its own, whose single peer owns the default route. */
  datatype ExitSpec = ExitSpec(siteId: nat, slug: Label, iface: Dev, table: nat, publicKey: Key,
                               endpoint: string, allowedIPs: seq<Prefix>, keepalive: nat)

  datatype Reason = NoSuchSite | NoPublicKey | NoEndpoint

  datatype Unusable = Unusable(client: Option<Addr>, exitSiteId: int, reason: Reason)

  datatype ExitPlan = ExitPlan(exits: seq<ExitSpec>, rules: seq<IpRule>, unusable: seq<Unusable>)

  /** What becomes of one device. */
  datatype Choice = NoExit | LocalExit | Refused(siteId: int, reason: Reason) | Through(site: Site)

  /** The roster row of a site; of rows with one id the last counts. */
  function RowOf(sites: seq<Site>, id: int): Option<Site> {
    if sites == [] then None
    else
      var later := RowOf(sites[1..], id);
      if later.Some? then later else if sites[0].siteId == id then Some(sites[0]) else None
  }

  function ChoiceOf(c: Client, sites: seq<Site>, localSiteId: int): Choice {
    if c.exitSiteId == None then NoExit
    else
      var id := c.exitSiteId.value;
      if id == localSiteId then LocalExit
      else
        var row := RowOf(sites, id);
        if row == None then Refused(id, NoSuchSite)
        else if row.value.gatewayPublicKey == "" then Refused(id, NoPublicKey)
        else if row.value.gatewayEndpoint == "" then Refused(id, NoEndpoint)
        else Through(row.value)
  }

  function SourceOf(c: Client): Prefix {
    if c.assignedIp.Some? then Host(c.assignedIp.value) else Malformed
  }

  function SpecOf(site: Site): ExitSpec
  {
    ExitSpec(site.siteId, if site.slug != "" then Label.Named(site.slug) else Label.Numbered(site.siteId),
             Exit(site.siteId), TableFor(site.siteId), site.gatewayPublicKey, site.gatewayEndpoint,
             [DEFAULT_ROUTE, Ipv6Default], 25)
  }

  function RuleFor(c: Client, siteId: nat): IpRule {
    IpRule(PriorityFor(siteId), SourceOf(c), TableFor(siteId))
  }

  lemma {:induction false} RowMeaning(sites: seq<Site>, id: int)
    ensures var row := RowOf(sites, id);
      && (row.Some? <==> exists s :: s in sites && s.siteId == id)
      && (row.Some? ==> row.value in sites && row.value.siteId == id)
  {
    if sites != [] {
      RowMeaning(sites[1..], id);
      assert sites == [sites[0]] + sites[1..];
    }
  }

  /** The rules, in the order of the devices. */
  function RulesOf(clients: seq<Client>, sites: seq<Site>, localSiteId: int): seq<IpRule>
  {
    if clients == [] then []
    else
      var choice := ChoiceOf(clients[0], sites, localSiteId);
      RowMeaning(sites, if clients[0].exitSiteId.Some? then clients[0].exitSiteId.value else 0);
      if choice.Through? then [RuleFor(clients[0], choice.site.siteId)] + RulesOf(clients[1..], sites, localSiteId)
      else RulesOf(clients[1..], sites, localSiteId)
  }

  function UnusableOf(clients: seq<Client>, sites: seq<Site>, localSiteId: int): seq<Unusable> {
    if clients == [] then []
    else
      var choice := ChoiceOf(clients[0], sites, localSiteId);
      if choice.Refused?
      then [Unusable(clients[0].assignedIp, choice.siteId, choice.reason)]
           + UnusableOf(clients[1..], sites, localSiteId)
      else UnusableOf(clients[1..], sites, localSiteId)
  }

  /** The exits chosen, each once, in the order they are first chosen, after those in `exits`. */
  function ExitsOf(exits: seq<ExitSpec>, clients: seq<Client>, sites: seq<Site>, localSiteId: int): seq<ExitSpec>
    decreases clients
  {
    if clients == [] then exits
    else
      var choice := ChoiceOf(clients[0], sites, localSiteId);
      RowMeaning(sites, if clients[0].exitSiteId.Some? then clients[0].exitSiteId.value else 0);
      ExitsOf(if choice.Through? && !HasExit(exits, choice.site.siteId) then exits + [SpecOf(choice.site)] else exits,
              clients[1..], sites, localSiteId)
  }

  predicate HasExit(exits: seq<ExitSpec>, siteId: nat) {
    exists e :: e in exits && e.siteId == siteId
  }

  /** The first applicable reason decides. */
  method Choose(client: Client, sites: seq<Site>, localSiteId: int) returns (choice: Choice)
    ensures choice == ChoiceOf(client, sites, localSiteId)
  {
    if client.exitSiteId == None {
      return NoExit;
    }
    var id := client.exitSiteId.value;
    if id == localSiteId {
      return LocalExit;
    }
    var row := RowOf(sites, id);
    if row == None || row.value.gatewayPublicKey == "" || row.value.gatewayEndpoint == "" {
      var reason :=
        if row == None then NoSuchSite
        else if row.value.gatewayPublicKey == "" then NoPublicKey
        else NoEndpoint;
      return Refused(id, reason);
    }
    choice := Through(row.value);
  }

  method PlanExits(clients: seq<Client>, sites: seq<Site>, localSiteId: int) returns (plan: ExitPlan)
    ensures plan == PlanOfExits(clients, sites, localSiteId)
  {
    var exits: seq<ExitSpec>, rules: seq<IpRule>, unusable: seq<Unusable> := [], [], [];
    for i := 0 to |clients|
      invariant ExitsOf(exits, clients[i..], sites, localSiteId) == ExitsOf([], clients, sites, localSiteId)
      invariant rules + RulesOf(clients[i..], sites, localSiteId) == RulesOf(clients, sites, localSiteId)
      invariant unusable + UnusableOf(clients[i..], sites, localSiteId) == UnusableOf(clients, sites, localSiteId)
    {
      assert clients[i..][1..] == clients[i + 1..];
      var choice := Choose(clients[i], sites, localSiteId);
      match choice
      case NoExit =>
      case LocalExit =>
      case Refused(id, reason) =>
        unusable := unusable + [Unusable(clients[i].assignedIp, id, reason)];
      case Through(site) =>
        RowMeaning(sites, clients[i].exitSiteId.value);
        if !HasExit(exits, site.siteId) {
          exits := exits + [SpecOf(site)];
        }
        rules := rules + [RuleFor(clients[i], site.siteId)];
    }
    plan := ExitPlan(exits, rules, unusable);
  }

  function PlanOfExits(clients: seq<Client>, sites: seq<Site>, localSiteId: int): ExitPlan
  {
    ExitPlan(ExitsOf([], clients, sites, localSiteId), RulesOf(clients, sites, localSiteId),
             UnusableOf(clients, sites, localSiteId))
  }

  // --------------------------------------------------------- what the plan says

  /** How many devices choose what `chosen` selects. */
  ghost function CountOf(clients: seq<Client>, sites: seq<Site>, localSiteId: int, chosen: Choice -> bool): nat {
    if clients == [] then 0
    else (if chosen(ChoiceOf(clients[0], sites, localSiteId)) then 1 else 0)
         + CountOf(clients[1..], sites, localSiteId, chosen)
  }

  /** Every device is accounted for exactly once: it has no exit, exits here, is reported, or has one rule. */
  lemma {:induction false} EveryDeviceIsAccountedFor(clients: seq<Client>, sites: seq<Site>, localSiteId: int)
    ensures |clients| == CountOf(clients, sites, localSiteId, (c: Choice) => c.NoExit?)
                       + CountOf(clients, sites, localSiteId, (c: Choice) => c.LocalExit?)
                       + |UnusableOf(clients, sites, localSiteId)| + |RulesOf(clients, sites, localSiteId)|
  {
    if clients != [] {
      EveryDeviceIsAccountedFor(clients[1..], sites, localSiteId);
    }
  }

  /** A rule is planned exactly for the devices with a usable exit, and a report exactly for those refused. */
  lemma {:induction false} RulesFollowChoices(clients: seq<Client>, sites: seq<Site>, localSiteId: int, r: IpRule,
                                              u: Unusable)
    ensures r in RulesOf(clients, sites, localSiteId) <==>
              exists c :: c in clients && SteeredTo(c, sites, localSiteId, r)
    ensures u in UnusableOf(clients, sites, localSiteId) <==>
              exists c :: c in clients && ChoiceOf(c, sites, localSiteId) == Refused(u.exitSiteId, u.reason)
                && u.client == c.assignedIp
  {
    if clients != [] {
      RulesFollowChoices(clients[1..], sites, localSiteId, r, u);
      RowMeaning(sites, if clients[0].exitSiteId.Some? then clients[0].exitSiteId.value else 0);
      assert forall c :: c in clients <==> c == clients[0] || c in clients[1..];
    }
  }

  /** `r` is the rule of device `c`. */
  predicate SteeredTo(c: Client, sites: seq<Site>, localSiteId: int, r: IpRule) {
    var choice := ChoiceOf(c, sites, localSiteId);
    choice.Through? && r == RuleFor(c, choice.site.siteId)
  }

  ghost predicate DistinctExits(exits: seq<ExitSpec>) {
    forall i, j :: 0 <= i < j < |exits| ==> exits[i].siteId != exits[j].siteId
  }

  predicate OwnParameters(e: ExitSpec) {
    e.iface == Exit(e.siteId) && e.table == TableFor(e.siteId) && e.allowedIPs == [DEFAULT_ROUTE, Ipv6Default]
  }

  /** One exit per chosen usable site, with that site's key, on an interface and a table of its own. */
  lemma {:induction false} ExitsFollowChoices(exits: seq<ExitSpec>, clients: seq<Client>, sites: seq<Site>,
                                              localSiteId: int)
    requires DistinctExits(exits) && forall e :: e in exits ==> OwnParameters(e)
    ensures var all := ExitsOf(exits, clients, sites, localSiteId);
      && exits <= all && DistinctExits(all)
      && (forall e :: e in all ==> OwnParameters(e))
      && (forall e :: e in all ==> e in exits || exists c :: c in clients && ChosenAs(c, sites, localSiteId, e))
      && (forall c :: c in clients && ChoiceOf(c, sites, localSiteId).Through? ==>
            HasExitFor(all, ChoiceOf(c, sites, localSiteId).site))
    decreases clients
  {
    if clients != [] {
      var choice := ChoiceOf(clients[0], sites, localSiteId);
      RowMeaning(sites, if clients[0].exitSiteId.Some? then clients[0].exitSiteId.value else 0);
      var next := if choice.Through? && !HasExit(exits, choice.site.siteId) then exits + [SpecOf(choice.site)]
        else exits;
      ExitsFollowChoices(next, clients[1..], sites, localSiteId);
      assert forall c :: c in clients <==> c == clients[0] || c in clients[1..];
      if choice.Through? {
        var e :| e in next && e.siteId == choice.site.siteId;
        assert e in ExitsOf(exits, clients, sites, localSiteId);
      }
    }
  }

  predicate ChosenAs(c: Client, sites: seq<Site>, localSiteId: int, e: ExitSpec) {
    var choice := ChoiceOf(c, sites, localSiteId);
    choice.Through? && e == SpecOf(choice.site)
  }

  predicate HasExitFor(exits: seq<ExitSpec>, site: Site) {
    exists e :: e in exits && e.siteId == site.siteId
  }

  /** The exits are exactly those some device calls for, and no site has two. */
  lemma ExitsAreTheChosen(clients: seq<Client>, sites: seq<Site>, localSiteId: int)
    ensures var exits := PlanOfExits(clients, sites, localSiteId).exits;
      && DistinctExits(exits)
      && (forall e :: e in exits ==> OwnParameters(e))
      && (forall e :: e in exits <==> exists c :: c in clients && ChosenAs(c, sites, localSiteId, e))
  {
    var exits := PlanOfExits(clients, sites, localSiteId).exits;
    ExitsFollowChoices([], clients, sites, localSiteId);
    forall e, c | c in clients && ChosenAs(c, sites, localSiteId, e) ensures e in exits {
      ChosenOnce(exits, clients, sites, localSiteId, e, c);
    }
  }

  lemma ChosenOnce(exits: seq<ExitSpec>, clients: seq<Client>, sites: seq<Site>, localSiteId: int, e: ExitSpec,
                   c: Client)
    requires c in clients && ChosenAs(c, sites, localSiteId, e)
    requires HasExitFor(exits, ChoiceOf(c, sites, localSiteId).site)
    requires forall d :: d in exits ==> exists b :: b in clients && ChosenAs(b, sites, localSiteId, d)
    ensures e in exits
  {
    var d :| d in exits && d.siteId == ChoiceOf(c, sites, localSiteId).site.siteId;
    var b :| b in clients && ChosenAs(b, sites, localSiteId, d);
    RowMeaning(sites, c.exitSiteId.value);
    RowMeaning(sites, b.exitSiteId.value);
  }

  /** The rules are exactly those of the devices with a usable exit, and each one's table is that of a
      planned exit: interfaces, tables and priorities tell sites apart. */
  lemma RulesAreTheChosen(clients: seq<Client>, sites: seq<Site>, localSiteId: int)
    ensures var plan := PlanOfExits(clients, sites, localSiteId);
      && (forall r :: r in plan.rules <==> exists c :: c in clients && SteeredTo(c, sites, localSiteId, r))
      && (forall r :: r in plan.rules ==>
            exists e :: e in plan.exits && r.table == e.table && r.priority == PriorityFor(e.siteId))
      && (forall d, e :: d in plan.exits && e in plan.exits && (d.table == e.table || d.iface == e.iface) ==> d == e)
  {
    var plan := PlanOfExits(clients, sites, localSiteId);
    ExitsAreTheChosen(clients, sites, localSiteId);
    forall r ensures r in plan.rules <==> exists c :: c in clients && SteeredTo(c, sites, localSiteId, r) {
      RulesFollowChoices(clients, sites, localSiteId, r, Unusable(None, 0, NoSuchSite));
    }
    forall r | r in plan.rules
      ensures exists e :: e in plan.exits && r.table == e.table && r.priority == PriorityFor(e.siteId)
    {
      var c :| c in clients && SteeredTo(c, sites, localSiteId, r);
      assert ChosenAs(c, sites, localSiteId, SpecOf(ChoiceOf(c, sites, localSiteId).site));
    }
  }

  // ------------------------------------------------- the plan, in the documents' fields

  /** The `i`th row is the last one with this id. */
  predicate LastRow(sites: seq<Site>, i: int, id: int) {
    0 <= i < |sites| && sites[i].siteId == id && forall j :: i < j < |sites| ==> sites[j].siteId != id
  }

  lemma {:induction false} RowOfIsLast(sites: seq<Site>, id: int)
    ensures RowOf(sites, id) == None <==> forall s :: s in sites ==> s.siteId != id
    ensures RowOf(sites, id).Some? ==> exists i :: LastRow(sites, i, id) && RowOf(sites, id) == Some(sites[i])
    ensures forall i :: LastRow(sites, i, id) ==> RowOf(sites, id) == Some(sites[i])
  {
    if sites != [] {
      var rest := sites[1..];
      RowOfIsLast(rest, id);
      assert forall s :: s in sites <==> s == sites[0] || s in rest;
      assert forall j :: 0 < j < |sites| ==> sites[j] == rest[j - 1];
      assert forall j :: 0 <= j < |rest| ==> rest[j] == sites[j + 1];
      if RowOf(rest, id).Some? {
        var i :| LastRow(rest, i, id) && RowOf(rest, id) == Some(rest[i]);
        assert LastRow(sites, i + 1, id);
      } else if sites[0].siteId == id {
        forall j | 0 < j < |sites| ensures sites[j].siteId != id {
          assert rest[j - 1] in rest;
        }
        assert LastRow(sites, 0, id);
      }
      forall i | LastRow(sites, i, id) ensures RowOf(sites, id) == Some(sites[i]) {
        if i > 0 {
          assert LastRow(rest, i - 1, id);
        } else {
          assert forall s :: s in rest ==> s.siteId != id;
        }
      }
    }
  }

  /** The device asks for this other site, whose last row has a key and an endpoint. */
  ghost predicate AsksFor(c: Client, sites: seq<Site>, localSiteId: int, n: nat, i: int) {
    && c.exitSiteId == Some(n) && n != localSiteId && LastRow(sites, i, n)
    && sites[i].gatewayPublicKey != "" && sites[i].gatewayEndpoint != ""
  }

  lemma ThroughExactly(c: Client, sites: seq<Site>, localSiteId: int, site: Site)
    ensures ChoiceOf(c, sites, localSiteId) == Through(site) <==>
              exists i :: AsksFor(c, sites, localSiteId, site.siteId, i) && sites[i] == site
  {
    if c.exitSiteId.Some? {
      RowOfIsLast(sites, c.exitSiteId.value);
    }
  }

  lemma RefusedExactly(c: Client, sites: seq<Site>, localSiteId: int, n: int, reason: Reason)
    ensures ChoiceOf(c, sites, localSiteId) == Refused(n, reason) <==>
              c.exitSiteId == Some(n) && n != localSiteId && Applies(sites, n, reason)
  {
    if c.exitSiteId.Some? {
      RowOfIsLast(sites, c.exitSiteId.value);
    }
  }

  /** The first thing that is wrong with a site: it has no row, or its last row has no key, or no endpoint. */
  ghost predicate Applies(sites: seq<Site>, n: int, reason: Reason) {
    match reason
    case NoSuchSite => forall s :: s in sites ==> s.siteId != n
    case NoPublicKey => exists i :: LastRow(sites, i, n) && sites[i].gatewayPublicKey == ""
    case NoEndpoint =>
      exists i :: LastRow(sites, i, n) && sites[i].gatewayPublicKey != "" && sites[i].gatewayEndpoint == ""
  }

  /** A rule is planned exactly for a device that asks for another site which has a key and an endpoint: from the
      device's address to table 2400 + id, with priority 3000 + id. */
  lemma RulesInFields(clients: seq<Client>, sites: seq<Site>, localSiteId: int, r: IpRule)
    ensures r in PlanOfExits(clients, sites, localSiteId).rules <==>
              exists c, n: nat, i ::
                && c in clients && AsksFor(c, sites, localSiteId, n, i)
                && r.table == 2400 + n && r.priority == 3000 + n
                && r.from == (if c.assignedIp.Some? then Prefix(c.assignedIp.value, 32) else Malformed)
  {
    RulesFollowChoices(clients, sites, localSiteId, r, Unusable(None, 0, NoSuchSite));
    if r in RulesOf(clients, sites, localSiteId) {
      var c :| c in clients && SteeredTo(c, sites, localSiteId, r);
      var site := ChoiceOf(c, sites, localSiteId).site;
      ThroughExactly(c, sites, localSiteId, site);
      var i :| AsksFor(c, sites, localSiteId, site.siteId, i) && sites[i] == site;
    }
    forall c, n: nat, i |
      && c in clients && AsksFor(c, sites, localSiteId, n, i)
      && r.table == 2400 + n && r.priority == 3000 + n
      && r.from == (if c.assignedIp.Some? then Prefix(c.assignedIp.value, 32) else Malformed)
      ensures r in RulesOf(clients, sites, localSiteId)
    {
      ThroughExactly(c, sites, localSiteId, sites[i]);
      assert SteeredTo(c, sites, localSiteId, r);
    }
  }

  /** No device is tunnelled to its own site. */
  lemma NoRuleIntoOwnSite(clients: seq<Client>, sites: seq<Site>, localSiteId: int, r: IpRule)
    requires r in PlanOfExits(clients, sites, localSiteId).rules
    ensures r.table != 2400 + localSiteId
  {
    RulesInFields(clients, sites, localSiteId, r);
  }

  /** A device is reported exactly if it asks for another site with which something is wrong, for the first such
      thing. */
  lemma ReportsInFields(clients: seq<Client>, sites: seq<Site>, localSiteId: int, u: Unusable)
    ensures u in PlanOfExits(clients, sites, localSiteId).unusable <==>
              exists c :: c in clients && u.client == c.assignedIp && c.exitSiteId == Some(u.exitSiteId)
                          && u.exitSiteId != localSiteId && Applies(sites, u.exitSiteId, u.reason)
  {
    RulesFollowChoices(clients, sites, localSiteId, IpRule(0, Malformed, 0), u);
    forall c
      ensures ChoiceOf(c, sites, localSiteId) == Refused(u.exitSiteId, u.reason) <==>
                && c.exitSiteId == Some(u.exitSiteId) && u.exitSiteId != localSiteId
                && Applies(sites, u.exitSiteId, u.reason)
    {
      RefusedExactly(c, sites, localSiteId, u.exitSiteId, u.reason);
    }
  }

  /** An exit is planned exactly for a site some device asks for: on interface `wg-exit-<id>` and table 2400 + id,
      with the default route, IPv6 included, the key and the endpoint of the site's last row, kept alive. */
  lemma ExitsInFields(clients: seq<Client>, sites: seq<Site>, localSiteId: int, e: ExitSpec)
    ensures e in PlanOfExits(clients, sites, localSiteId).exits <==>
              exists c, n: nat, i :: c in clients && AsksFor(c, sites, localSiteId, n, i) && InFields(e, sites[i], n)
  {
    ExitsAreTheChosen(clients, sites, localSiteId);
    if e in PlanOfExits(clients, sites, localSiteId).exits {
      var c :| c in clients && ChosenAs(c, sites, localSiteId, e);
      var site := ChoiceOf(c, sites, localSiteId).site;
      ThroughExactly(c, sites, localSiteId, site);
      var i :| AsksFor(c, sites, localSiteId, site.siteId, i) && sites[i] == site;
      assert InFields(e, sites[i], site.siteId);
    }
    forall c, n: nat, i | c in clients && AsksFor(c, sites, localSiteId, n, i) && InFields(e, sites[i], n)
      ensures e in PlanOfExits(clients, sites, localSiteId).exits
    {
      ThroughExactly(c, sites, localSiteId, sites[i]);
      assert ChosenAs(c, sites, localSiteId, e);
    }
  }

  predicate InFields(e: ExitSpec, row: Site, n: nat) {
    && e.siteId == n && e.iface == Exit(n) && e.table == 2400 + n
    && e.publicKey == row.gatewayPublicKey && e.endpoint == row.gatewayEndpoint
    && e.allowedIPs == [Prefix(0, 0), Ipv6Default] && e.keepalive == 25
    && e.slug == (if row.slug == "" then Label.Numbered(n) else Label.Named(row.slug))
  }

  /** Devices are taken in the order of the document, and an exit is put behind those chosen before. */
  lemma {:induction false} ChoicesKeepOrder(exits: seq<ExitSpec>, a: seq<Client>, b: seq<Client>, sites: seq<Site>,
                                            localSiteId: int)
    ensures RulesOf(a + b, sites, localSiteId) == RulesOf(a, sites, localSiteId) + RulesOf(b, sites, localSiteId)
    ensures UnusableOf(a + b, sites, localSiteId)
         == UnusableOf(a, sites, localSiteId) + UnusableOf(b, sites, localSiteId)
    ensures ExitsOf(exits, a + b, sites, localSiteId)
         == ExitsOf(ExitsOf(exits, a, sites, localSiteId), b, sites, localSiteId)
    decreases a
  {
    if a == [] {
      assert a + b == b;
    } else {
      assert (a + b)[1..] == a[1..] + b;
      var choice := ChoiceOf(a[0], sites, localSiteId);
      var next := if choice.Through? && !HasExit(exits, choice.site.siteId) then exits + [SpecOf(choice.site)]
                  else exits;
      ChoicesKeepOrder(next, a[1..], b, sites, localSiteId);
    }
  }
}
