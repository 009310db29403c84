// Sending a device's internet traffic out of a chosen site (applyExits in services/exit_router.js).
module ExitRouter {
  import opened Kernel
  import opened WgIface
  import opened ExitPlan
  import opened ExitRules

  // ----------------------------------------------------------- specifications

  /** What bringing one exit up does to its link; `false` stands for an exception on the way. */
  function LinkRaised(l: Link, e: ExitSpec, f: set<Cmd>): (Link, bool) {
    if WgKey(e.iface) in f then (l, false)
    else
      var (addrs, ok) := AddressesAfter(l.addrs, e.iface, [], f);
      if !ok || WgSet(e.iface, e.publicKey, e.allowedIPs) in f then (WithAddrs(l, addrs), false)
      else (SetAllowedIps(WithAddrs(l, addrs), e.publicKey, e.allowedIPs), true)
  }

  /** The parts of the network state that exits are made of. */
  datatype Exits = Exits(links: map<Dev, Link>, tables: map<nat, Dev>)

  function ExitRaised(x: Exits, e: ExitSpec, f: set<Cmd>): (Exits, bool) {
    var (links, made) := InterfaceEnsured(x.links, e.iface, f);
    if !made then (x, false)
    else
      var (l, ok) := LinkRaised(links[e.iface], e, f);
      (Exits(links[e.iface := l],
             if ok && TableDefault(e.table, e.iface) !in f then x.tables[e.table := e.iface] else x.tables), ok)
  }

  /** Exit after exit; a failing one is noted and stops nothing. */
  function ExitsRaised(x: Exits, exits: seq<ExitSpec>, f: set<Cmd>): Exits
    decreases exits
  {
    if exits == [] then x else ExitsRaised(ExitRaised(x, exits[0], f).0, exits[1..], f)
  }

  /** The interfaces that could not be brought up, after those in `failed`. */
  function ExitsFailing(x: Exits, exits: seq<ExitSpec>, failed: seq<Dev>, f: set<Cmd>): seq<Dev>
    decreases exits
  {
    if exits == [] then failed
    else
      var (next, ok) := ExitRaised(x, exits[0], f);
      ExitsFailing(next, exits[1..], if ok then failed else failed + [exits[0].iface], f)
  }

  /** The sites whose exit interface exists although nobody exits there any more. */
  function Abandoned(links: map<Dev, Link>, exits: seq<ExitSpec>, f: set<Cmd>): set<nat> {
    if LinkShow in f then {}
    else set d | d in links && d.Exit? && !HasExit(exits, d.site) :: d.site
  }

  predicate TornDown(d: Dev, gone: set<nat>, f: set<Cmd>) {
    d.Exit? && d.site in gone && LinkDel(d) !in f
  }

  /** Flushes the tables and deletes the links of a set of sites. */
  function ExitsDropped(net: Net, gone: set<nat>, f: set<Cmd>): Net {
    net.(links := map d | d in net.links && !TornDown(d, gone, f) :: net.links[d],
         main := map p | p in net.main && !TornDown(net.main[p], gone, f) :: net.main[p],
         tables := map t | t in net.tables && !TornDown(net.tables[t], gone, f)
                           && !(t >= TABLE_BASE && t - TABLE_BASE in gone && TableFlush(t) !in f)
                     :: net.tables[t])
  }

  function ExitsApplied(net: Net, plan: ExitPlan, f: set<Cmd>): Net {
    var up := ExitsRaised(Exits(net.links, net.tables), plan.exits, f);
    var ruled := net.(links := up.links, tables := up.tables, rules := RulesReconciled(net.rules, plan.rules, f));
    ExitsDropped(ruled, Abandoned(ruled.links, plan.exits, f), f)
  }

  // ------------------------------------------------------------------ methods

  /** An exit that is up has its table and its interface, whose default route is its own site's. */
  predicate IsUp(x: Exits, e: ExitSpec) {
    && e.iface in x.links && e.table in x.tables && x.tables[e.table] == e.iface
    && forall p :: p in e.allowedIPs ==> p in x.links[e.iface].owner && x.links[e.iface].owner[p] == e.publicKey
  }

  /** No two exits are of one site, and each has its site's own interface and table. */
  ghost predicate OwnExits(exits: seq<ExitSpec>) {
    DistinctExits(exits) && forall e :: e in exits ==> OwnParameters(e)
  }

  /** Planned exits that are up in `was` are up in `s`. */
  ghost predicate UpStaysUp(exits: seq<ExitSpec>, was: Net, s: Net) {
    forall e :: e in exits && IsUp(Exits(was.links, was.tables), e) ==> IsUp(Exits(s.links, s.tables), e)
  }

  /** Interfaces that are no exits, routes that are not through one, tables that are no exit's, and local
      ranges are as before. */
  ghost predicate ExitsOnly(was: Net, s: Net) {
    && s.local == was.local
    && (forall d: Dev :: !d.Exit? ==>
          (d in was.links <==> d in s.links) && (d in was.links ==> s.links[d] == was.links[d]))
    && (forall p :: p in s.main ==> p in was.main && s.main[p] == was.main[p])
    && (forall p :: p in was.main && !was.main[p].Exit? ==> p in s.main)
    && (forall t :: t in s.tables && t < TABLE_BASE ==> t in was.tables && s.tables[t] == was.tables[t])
  }

  /** A moment while exits are raised: links are only added, and routes and rules untouched. */
  ghost predicate Raising(was: Net, s: Net, exits: seq<ExitSpec>) {
    && s == was.(links := s.links, tables := s.tables) && was.links.Keys <= s.links.Keys
    && ExitsOnly(was, s) && UpStaysUp(exits, was, s)
  }

  lemma ApartFromOthers(exits: seq<ExitSpec>, d: ExitSpec, e: ExitSpec)
    requires OwnExits(exits) && d in exits && e in exits
    ensures d == e || (d.siteId != e.siteId && d.iface != e.iface && d.table != e.table)
  {
  }

  /** Changes to one exit's interface and table that do not take it down take no exit down. */
  lemma OneExitChanges(was: Net, s: Net, exits: seq<ExitSpec>, e: ExitSpec)
    requires OwnExits(exits) && e in exits
    requires OneRaised(was, s, e)
    ensures Raising(was, s, exits)
  {
    forall d | d in exits && IsUp(Exits(was.links, was.tables), d) ensures IsUp(Exits(s.links, s.tables), d) {
      ApartFromOthers(exits, d, e);
    }
  }

  /** A moment while one exit is raised. */
  ghost predicate OneRaised(was: Net, s: Net, e: ExitSpec) {
    && s == was.(links := s.links, tables := s.tables) && was.links.Keys <= s.links.Keys
    && (forall d :: d != e.iface ==>
          (d in was.links <==> d in s.links) && (d in was.links ==> s.links[d] == was.links[d]))
    && (forall t :: t != e.table ==>
          (t in was.tables <==> t in s.tables) && (t in was.tables ==> s.tables[t] == was.tables[t]))
    && (IsUp(Exits(was.links, was.tables), e) ==> IsUp(Exits(s.links, s.tables), e))
  }

  /** A moment while the link of an exit is set up. */
  ghost predicate LinkMoment(was: Net, s: Net, e: ExitSpec) {
    && e.iface in was.links && e.iface in s.links
    && s == was.(links := was.links[e.iface := s.links[e.iface]])
    && forall p :: p in e.allowedIPs && p in was.links[e.iface].owner && was.links[e.iface].owner[p] == e.publicKey ==>
         p in s.links[e.iface].owner && s.links[e.iface].owner[p] == e.publicKey
  }

  /** Key, addresses and the one peer. */
  method SetUpLink(k: Kernel, e: ExitSpec) returns (ok: bool)
    requires e.iface in k.links
    modifies k`links, k`states
    ensures ok == LinkRaised(old(k.links)[e.iface], e, k.faults).1
    ensures k.links == old(k.links)[e.iface := LinkRaised(old(k.links)[e.iface], e, k.faults).0]
    ensures old(k.states) <= k.states && LinkMoment(old(k.Now()), k.Now(), e)
    ensures forall i :: |old(k.states)| <= i < |k.states| ==> LinkMoment(old(k.Now()), k.states[i], e)
  {
    assert k.links == k.links[e.iface := k.links[e.iface]];
    ok := k.Show(WgKey(e.iface));
    if !ok {
      return;
    }
    ok := SetAddresses(k, e.iface, []);
    if !ok {
      return;
    }
    ok := SetPeerNoRoutes(k, e.iface, e.publicKey, e.allowedIPs);
  }

  lemma LinkMomentIsOneRaised(was: Net, mid: Net, s: Net, e: ExitSpec, f: set<Cmd>)
    requires mid == was.(links := InterfaceEnsured(was.links, e.iface, f).0) && LinkMoment(mid, s, e)
    ensures OneRaised(was, s, e)
  {
  }

  lemma TableSetIsOneRaised(was: Net, mid: Net, e: ExitSpec)
    requires OneRaised(was, mid, e)
    ensures OneRaised(was, mid.(tables := mid.tables[e.table := e.iface]), e)
  {
  }

  method RaiseExit(k: Kernel, e: ExitSpec) returns (ok: bool)
    modifies k`links, k`tables, k`states
    ensures (Exits(k.links, k.tables), ok) == ExitRaised(Exits(old(k.links), old(k.tables)), e, k.faults)
    ensures old(k.states) <= k.states && OneRaised(old(k.Now()), k.Now(), e)
    ensures forall i :: |old(k.states)| <= i < |k.states| ==> OneRaised(old(k.Now()), k.states[i], e)
  {
    ghost var now0 := k.Now();
    ok := EnsureInterface(k, e.iface);
    if !ok {
      return;
    }
    ghost var now1, states1 := k.Now(), k.states;
    assert LinkMoment(now1, now1, e) by {
      assert now1.links == now1.links[e.iface := now1.links[e.iface]];
    }
    LinkMomentIsOneRaised(now0, now1, now1, e, k.faults);
    ok := SetUpLink(k, e);
    LinkMomentIsOneRaised(now0, now1, k.Now(), e, k.faults);
    forall i | |states1| <= i < |k.states| ensures OneRaised(now0, k.states[i], e) {
      LinkMomentIsOneRaised(now0, now1, k.states[i], e, k.faults);
    }
    if !ok {
      return;
    }
    TableSetIsOneRaised(now0, k.Now(), e);
    k.TableDefault(e.table, e.iface);
  }

  method RaiseExits(k: Kernel, exits: seq<ExitSpec>) returns (failed: seq<Dev>)
    requires OwnExits(exits)
    modifies k`links, k`tables, k`states
    ensures Exits(k.links, k.tables) == ExitsRaised(Exits(old(k.links), old(k.tables)), exits, k.faults)
    ensures failed == ExitsFailing(Exits(old(k.links), old(k.tables)), exits, [], k.faults)
    ensures old(k.states) <= k.states && Raising(old(k.Now()), k.Now(), exits)
    ensures forall i :: |old(k.states)| <= i < |k.states| ==> Raising(old(k.Now()), k.states[i], exits)
  {
    failed := [];
    for i := 0 to |exits|
      invariant ExitsRaised(Exits(k.links, k.tables), exits[i..], k.faults)
                == ExitsRaised(Exits(old(k.links), old(k.tables)), exits, k.faults)
      invariant ExitsFailing(Exits(k.links, k.tables), exits[i..], failed, k.faults)
                == ExitsFailing(Exits(old(k.links), old(k.tables)), exits, [], k.faults)
      invariant old(k.states) <= k.states && Raising(old(k.Now()), k.Now(), exits)
      invariant forall j :: |old(k.states)| <= j < |k.states| ==> Raising(old(k.Now()), k.states[j], exits)
    {
      assert exits[i..][1..] == exits[i + 1..];
      ghost var now1, states1 := k.Now(), k.states;
      var ok := RaiseExit(k, exits[i]);
      if !ok {
        failed := failed + [exits[i].iface];
      }
      OneExitChanges(now1, k.Now(), exits, exits[i]);
      RaisingOnwards(old(k.Now()), now1, k.Now(), exits);
      forall j | |states1| <= j < |k.states| ensures Raising(old(k.Now()), k.states[j], exits) {
        OneExitChanges(now1, k.states[j], exits, exits[i]);
        RaisingOnwards(old(k.Now()), now1, k.states[j], exits);
      }
    }
  }

  lemma RaisingOnwards(was: Net, mid: Net, s: Net, exits: seq<ExitSpec>)
    requires Raising(was, mid, exits) && Raising(mid, s, exits)
    ensures Raising(was, s, exits)
  {
  }

  /** A moment of the teardown. */
  ghost predicate Dropping(was: Net, s: Net, exits: seq<ExitSpec>) {
    && s.rules == was.rules && ExitsOnly(was, s) && UpStaysUp(exits, was, s)
    && forall d :: d in was.links && d !in s.links ==> d.Exit? && !HasExit(exits, d.site)
  }

  /** Dropping exits one by one drops them all. */
  lemma DropOneMore(net: Net, gone: set<nat>, n: nat, f: set<Cmd>)
    ensures ExitsDropped(ExitsDropped(net, gone, f), {n}, f) == ExitsDropped(net, gone + {n}, f)
  {
    var a, b := ExitsDropped(ExitsDropped(net, gone, f), {n}, f), ExitsDropped(net, gone + {n}, f);
    assert a.links == b.links;
    assert a.main == b.main;
    assert a.tables == b.tables;
  }

  lemma DropNone(net: Net, f: set<Cmd>)
    ensures ExitsDropped(net, {}, f) == net
  {
    var same := ExitsDropped(net, {}, f);
    assert same.links == net.links && same.main == net.main && same.tables == net.tables;
  }

  /** A moment while one exit is torn down. */
  ghost predicate OneDropped(was: Net, s: Net, n: nat) {
    && s.rules == was.rules && s.local == was.local
    && (forall d :: d in s.links ==> d in was.links && s.links[d] == was.links[d])
    && (forall d :: d in was.links && d != Exit(n) ==> d in s.links)
    && (forall p :: p in s.main ==> p in was.main && s.main[p] == was.main[p])
    && (forall p :: p in was.main && was.main[p] != Exit(n) ==> p in s.main)
    && (forall t :: t in s.tables ==> t in was.tables && s.tables[t] == was.tables[t])
    && (forall t :: t in was.tables && was.tables[t] != Exit(n) && t != TableFor(n) ==>
        t in s.tables && s.tables[t] == was.tables[t])
  }

  /** Flushing a table, and deleting a link: routes through it go with it. */
  function TableFlushed(net: Net, n: nat, f: set<Cmd>): Net {
    if TableFlush(TableFor(n)) in f then net else net.(tables := net.tables - {TableFor(n)})
  }

  function LinkDropped(net: Net, n: nat, f: set<Cmd>): Net {
    if LinkDel(Exit(n)) in f then net
    else net.(links := net.links - {Exit(n)}, main := WithoutDev(net.main, Exit(n)),
              tables := WithoutDev(net.tables, Exit(n)))
  }

  lemma DroppedInTwoSteps(net: Net, n: nat, f: set<Cmd>)
    ensures LinkDropped(TableFlushed(net, n, f), n, f) == ExitsDropped(net, {n}, f)
  {
    LinksDropped(net, n, f);
    TablesDropped(net, n, f);
  }

  lemma LinksDropped(net: Net, n: nat, f: set<Cmd>)
    ensures LinkDropped(TableFlushed(net, n, f), n, f).links == ExitsDropped(net, {n}, f).links
    ensures LinkDropped(TableFlushed(net, n, f), n, f).main == ExitsDropped(net, {n}, f).main
  {
    TornDownAlone(n, f);
  }

  lemma TablesDropped(net: Net, n: nat, f: set<Cmd>)
    ensures LinkDropped(TableFlushed(net, n, f), n, f).tables == ExitsDropped(net, {n}, f).tables
  {
    TornDownAlone(n, f);
    var flushed := TableFlushed(net, n, f).tables;
    assert forall t :: t in flushed <==> t in net.tables && !(t == TableFor(n) && TableFlush(t) !in f);
  }

  lemma TornDownAlone(n: nat, f: set<Cmd>)
    ensures forall d :: TornDown(d, {n}, f) <==> d == Exit(n) && LinkDel(Exit(n)) !in f
  {
  }

  lemma FlushIsAMoment(net: Net, n: nat, f: set<Cmd>)
    ensures OneDropped(net, TableFlushed(net, n, f), n)
  {
  }

  lemma DropIsAMoment(net: Net, n: nat, f: set<Cmd>)
    ensures OneDropped(net, LinkDropped(TableFlushed(net, n, f), n, f), n)
  {
  }

  /** One round of the teardown. */
  method DropExit(k: Kernel, n: nat)
    modifies k`links, k`main, k`tables, k`states
    ensures k.Now() == ExitsDropped(old(k.Now()), {n}, k.faults)
    ensures old(k.states) <= k.states && OneDropped(old(k.Now()), k.Now(), n)
    ensures forall i :: |old(k.states)| <= i < |k.states| ==> OneDropped(old(k.Now()), k.states[i], n)
  {
    DroppedInTwoSteps(k.Now(), n, k.faults);
    FlushIsAMoment(k.Now(), n, k.faults);
    DropIsAMoment(k.Now(), n, k.faults);
    k.TableFlush(TableFor(n));
    assert k.Now() == TableFlushed(old(k.Now()), n, k.faults);
    k.LinkDel(Exit(n));
    assert k.Now() == LinkDropped(TableFlushed(old(k.Now()), n, k.faults), n, k.faults);
  }

  /** The exit interfaces on the box that no planned exit uses. */
  method ListAbandoned(k: Kernel, exits: seq<ExitSpec>) returns (gone: set<nat>)
    ensures gone == Abandoned(k.links, exits, k.faults)
    ensures forall n :: n in gone ==> !HasExit(exits, n)
  {
    var shown := k.Show(LinkShow);
    gone := if shown then set d | d in k.links && d.Exit? && !HasExit(exits, d.site) :: d.site else {};
  }

  /** Tears down the interfaces nobody exits through any more. */
  method DropAbandoned(k: Kernel, exits: seq<ExitSpec>)
    requires OwnExits(exits)
    modifies k`links, k`main, k`tables, k`states
    ensures k.Now() == ExitsDropped(old(k.Now()), Abandoned(old(k.links), exits, k.faults), k.faults)
    ensures old(k.states) <= k.states
    ensures forall i :: |old(k.states)| <= i < |k.states| ==> Dropping(old(k.Now()), k.states[i], exits)
  {
    ghost var now0 := k.Now();
    var todo := ListAbandoned(k, exits);
    ghost var all := todo;
    ghost var done: set<nat> := {};
    DropNone(now0, k.faults);
    while todo != {}
      invariant done + todo == all
      invariant k.Now() == ExitsDropped(now0, done, k.faults)
      invariant Dropping(now0, k.Now(), exits)
      invariant old(k.states) <= k.states
      invariant forall j :: |old(k.states)| <= j < |k.states| ==> Dropping(now0, k.states[j], exits)
      decreases todo
    {
      var n :| n in todo;
      DropNextExit(k, exits, n, now0, done);
      todo, done := todo - {n}, done + {n};
    }
  }

  /** One round, after the exits of `done`. */
  method DropNextExit(k: Kernel, exits: seq<ExitSpec>, n: nat, ghost now0: Net, ghost done: set<nat>)
    requires OwnExits(exits) && !HasExit(exits, n)
    requires k.Now() == ExitsDropped(now0, done, k.faults) && Dropping(now0, k.Now(), exits)
    modifies k`links, k`main, k`tables, k`states
    ensures k.Now() == ExitsDropped(now0, done + {n}, k.faults) && Dropping(now0, k.Now(), exits)
    ensures old(k.states) <= k.states
    ensures forall i :: |old(k.states)| <= i < |k.states| ==> Dropping(now0, k.states[i], exits)
  {
    ghost var now1, states1 := k.Now(), k.states;
    DropOneMore(now0, done, n, k.faults);
    DropExit(k, n);
    DroppingOnwards(now0, now1, k.Now(), exits, n);
    forall j | |states1| <= j < |k.states| ensures Dropping(now0, k.states[j], exits) {
      DroppingOnwards(now0, now1, k.states[j], exits, n);
    }
  }

  lemma DroppingOnwards(was: Net, mid: Net, s: Net, exits: seq<ExitSpec>, n: nat)
    requires Dropping(was, mid, exits) && !HasExit(exits, n) && OwnExits(exits)
    requires OneDropped(mid, s, n)
    ensures Dropping(was, s, exits)
  {
    forall e | e in exits && IsUp(Exits(mid.links, mid.tables), e) ensures IsUp(Exits(s.links, s.tables), e) {
      assert OwnParameters(e) && e.siteId != n;
    }
  }

  /** A moment of the pass: what is not about exits is as before, planned exits that were up are up, rules
      that are installed and planned are in place, every rule in place was installed or is planned, and a
      link of before is missing only once the rules are reconciled and nobody exits through it. */
  ghost predicate Orderly(was: Net, s: Net, plan: ExitPlan, f: set<Cmd>) {
    && ExitsOnly(was, s) && UpStaysUp(plan.exits, was, s)
    && (forall r :: r in was.rules && HasPair(plan.rules, r) ==> r in s.rules)
    && (forall r :: r in s.rules ==> r in was.rules || r in plan.rules)
    && (Sorted(was.rules) ==> Sorted(s.rules))
    && (forall d :: d in was.links && d !in s.links ==>
          d.Exit? && !HasExit(plan.exits, d.site) && s.rules == RulesReconciled(was.rules, plan.rules, f))
  }

  method ApplyExits(k: Kernel, plan: ExitPlan) returns (failed: seq<Dev>)
    requires OwnExits(plan.exits)
    modifies k`links, k`main, k`tables, k`rules, k`states
    ensures k.Now() == ExitsApplied(old(k.Now()), plan, k.faults)
    ensures failed == ExitsFailing(Exits(old(k.links), old(k.tables)), plan.exits, [], k.faults)
    ensures old(k.states) <= k.states
    ensures forall i :: |old(k.states)| <= i < |k.states| ==> Orderly(old(k.Now()), k.states[i], plan, k.faults)
  {
    ghost var now0 := k.Now();
    failed := RaiseExits(k, plan.exits);
    ghost var now1, states1 := k.Now(), k.states;
    ReconcileRules(k, plan.rules);
    ghost var now2, states2 := k.Now(), k.states;
    assert now2.(rules := now0.rules) == now1;
    DropAbandoned(k, plan.exits);
    forall i | |old(k.states)| <= i < |k.states| ensures Orderly(now0, k.states[i], plan, k.faults) {
      if i < |states1| {
        assert Raising(now0, k.states[i], plan.exits);
      } else if i < |states2| {
        assert SteadyRules(now1, k.states[i], plan.rules);
      } else {
        DroppingIsOrderly(now0, now2, k.states[i], plan, k.faults);
      }
    }
  }

  lemma DroppingIsOrderly(was: Net, mid: Net, s: Net, plan: ExitPlan, f: set<Cmd>)
    requires Raising(was, mid.(rules := was.rules), plan.exits)
              && mid.rules == RulesReconciled(was.rules, plan.rules, f)
    requires SteadyRules(mid.(rules := was.rules), mid, plan.rules) && Dropping(mid, s, plan.exits)
    ensures Orderly(was, s, plan, f)
  {
  }

  lemma PlannedStay(rules: seq<IpRule>, planned: seq<IpRule>, f: set<Cmd>)
    ensures forall r :: r in rules && HasPair(planned, r) ==> r in RulesReconciled(rules, planned, f)
  {
    forall r | r in rules && HasPair(planned, r) ensures r in RulesReconciled(rules, planned, f) {
      var installed := Installed(rules, f);
      if RuleShow in f {
        AddedMembers(rules, installed, planned, f, r);
      } else {
        ReconciledMembers(rules, planned, f, r);
      }
    }
  }

  // ------------------------------------------------- which exits fail, and what goes

  /** The commands an exit cannot do without: seeing or creating its link, its key, its peer, and bringing it up. */
  predicate CanRaise(links: map<Dev, Link>, e: ExitSpec, f: set<Cmd>) {
    && ((e.iface in links && DevShow(e.iface) !in f) || LinkAdd(e.iface) !in f)
    && WgKey(e.iface) !in f && LinkUp(e.iface) !in f && WgSet(e.iface, e.publicKey, e.allowedIPs) !in f
  }

  lemma RaisedExactly(x: Exits, e: ExitSpec, f: set<Cmd>)
    ensures ExitRaised(x, e, f).1 <==> CanRaise(x.links, e, f)
  {
  }

  /** An interface is reported as failed exactly if one of its own needed commands fails; a failing route command
      is not reported. */
  lemma {:induction false} ExitsFailingExactly(x: Exits, exits: seq<ExitSpec>, failed: seq<Dev>, f: set<Cmd>, d: Dev)
    requires OwnExits(exits)
    ensures d in ExitsFailing(x, exits, failed, f) <==>
              d in failed || exists e :: e in exits && e.iface == d && !CanRaise(x.links, e, f)
    decreases exits
  {
    if exits != [] {
      var (next, ok) := ExitRaised(x, exits[0], f);
      var rest := exits[1..];
      RaisedExactly(x, exits[0], f);
      assert forall e :: e in exits <==> e == exits[0] || e in rest;
      assert forall j :: 0 <= j < |rest| ==> rest[j] == exits[j + 1];
      forall e | e in rest ensures CanRaise(next.links, e, f) <==> CanRaise(x.links, e, f) {
        var j :| 0 <= j < |rest| && rest[j] == e;
        assert exits[0].siteId != exits[j + 1].siteId;
        ApartFromOthers(exits, exits[0], e);
      }
      ExitsFailingExactly(next, rest, if ok then failed else failed + [exits[0].iface], f, d);
    }
  }

  /** The exits of others stay out of the way: which links there are after raising. */
  lemma {:induction false} RaisedSites(x: Exits, exits: seq<ExitSpec>, f: set<Cmd>, n: nat)
    requires OwnExits(exits) && !HasExit(exits, n)
    ensures Exit(n) in ExitsRaised(x, exits, f).links <==> Exit(n) in x.links
    decreases exits
  {
    if exits != [] {
      assert OwnParameters(exits[0]) && exits[0].siteId != n by {
        assert exits[0] in exits;
      }
      RaisedSites(ExitRaised(x, exits[0], f).0, exits[1..], f, n);
    }
  }

  /** After the pass the link of a site nobody exits through is gone exactly if it can be seen and deleted, and then
      its table is empty if it can be flushed. */
  lemma AbandonedGoExactly(net: Net, plan: ExitPlan, f: set<Cmd>, n: nat)
    requires OwnExits(plan.exits) && !HasExit(plan.exits, n) && Exit(n) in net.links
    ensures var after := ExitsApplied(net, plan, f);
      && (Exit(n) !in after.links <==> LinkShow !in f && LinkDel(Exit(n)) !in f)
      && (LinkShow !in f && TableFlush(2400 + n) !in f ==> 2400 + n !in after.tables)
  {
    RaisedSites(Exits(net.links, net.tables), plan.exits, f, n);
    var up := ExitsRaised(Exits(net.links, net.tables), plan.exits, f);
    assert LinkShow !in f ==> n in Abandoned(up.links, plan.exits, f);
  }
}
