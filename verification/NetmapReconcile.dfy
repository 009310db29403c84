// The NETMAP part of applyPlan (services/mesh_state.js): wanted mappings are applied and remembered in
// Redis, then remembered ones that are no longer wanted are removed.
module NetmapReconcile {
  import opened Ipv4
  import opened Kernel
  import opened NetRouter

  /** The firewall and local routes, with the mappings Redis remembers, in the order it lists them. */
  datatype Lans = Lans(base: Natting, tracked: seq<Mapping>)

  /** The Redis set of applied mappings. */
  class Tracker {
    var tracked: seq<Mapping>

    constructor (tracked: seq<Mapping>)
      ensures this.tracked == tracked
    {
      this.tracked := tracked;
    }

    method Record(m: Mapping, faults: set<Cmd>)
      modifies this
      ensures tracked == Recorded(old(tracked), m, faults)
    {
      if TrackAdd(m) !in faults && m !in tracked {
        tracked := tracked + [m];
      }
    }

    method Forget(m: Mapping, faults: set<Cmd>)
      modifies this
      ensures tracked == Forgotten(old(tracked), m, faults)
    {
      if TrackDel(m) !in faults {
        tracked := Without(tracked, m);
      }
    }
  }

  // ----------------------------------------------------------- specifications

  function Recorded(tracked: seq<Mapping>, m: Mapping, f: set<Cmd>): seq<Mapping> {
    if TrackAdd(m) in f || m in tracked then tracked else tracked + [m]
  }

  function Forgotten(tracked: seq<Mapping>, m: Mapping, f: set<Cmd>): seq<Mapping> {
    if TrackDel(m) in f then tracked else Without(tracked, m)
  }

  /** Mapping after mapping; one that cannot be applied is noted, not remembered, and stops nothing. */
  function MappingsApplied(s: Lans, dev: Dev, maps: seq<Mapping>, failed: seq<Mapping>, f: set<Cmd>)
    : (Lans, seq<Mapping>)
    decreases maps
  {
    if maps == [] then (s, failed)
    else
      var (next, ok) := MappingApplied(s, dev, maps[0], f);
      MappingsApplied(next, dev, maps[1..], if ok then failed else failed + [maps[0]], f)
  }

  function MappingApplied(s: Lans, dev: Dev, m: Mapping, f: set<Cmd>): (Lans, bool) {
    var (next, ok) := NetmapApplied(s.base, dev, m, f);
    (Lans(next, if ok then Recorded(s.tracked, m, f) else s.tracked), ok)
  }

  /** Removes the listed mappings that are not wanted. */
  function StaleRemoved(s: Lans, dev: Dev, listed: seq<Mapping>, wanted: seq<Mapping>, f: set<Cmd>): Lans
    decreases listed
  {
    if listed == [] then s
    else if listed[0] in wanted then StaleRemoved(s, dev, listed[1..], wanted, f)
    else
      StaleRemoved(Lans(NetmapRemoved(s.base, dev, listed[0], f), Forgotten(s.tracked, listed[0], f)), dev, listed[1..],
                   wanted, f)
  }

  /** The rules and the local ranges of mappings that are remembered and not wanted. */
  function StaleEntries(dev: Dev, tracked: seq<Mapping>, maps: seq<Mapping>): set<Entry> {
    set x, e | x in tracked && x !in maps && e in MappingEntries(dev, x) :: e
  }

  function StaleShadows(tracked: seq<Mapping>, maps: seq<Mapping>): set<Prefix> {
    set x | x in tracked && x !in maps :: x.shadow
  }

  /** One pass; `false` when Redis cannot list what is remembered, which ends the pass with an exception. */
  function NetmapPass(s: Lans, dev: Dev, maps: seq<Mapping>, f: set<Cmd>): (Lans, seq<Mapping>, bool) {
    var (up, failed) := MappingsApplied(s, dev, maps, [], f);
    if TrackList in f then (up, failed, false)
    else (StaleRemoved(up, dev, up.tracked, maps, f), failed, true)
  }

  // ------------------------------------------------------------------ methods

  /** One round of the first loop. */
  method ApplyMapping(k: Kernel, tracker: Tracker, dev: Dev, m: Mapping) returns (ok: bool)
    modifies k`fw, k`chains, k`local, k`states, tracker
    ensures (Lans(Natting(k.fw, k.local), tracker.tracked), ok)
         == MappingApplied(Lans(Natting(old(k.fw), old(k.local)), old(tracker.tracked)), dev, m, k.faults)
    ensures LocalOnly(old(k.states), k.states, k.Now())
    ensures LocalHeld(old(k.states), k.states, old(k.local), k.local, {})
    ensures ChainsHeld(old(k.chains), k.chains, old(k.fw), k.fw, {})
  {
    ok := ApplyNetmap(k, dev, m);
    if ok {
      tracker.Record(m, k.faults);
    }
  }

  method ApplyMappings(k: Kernel, tracker: Tracker, dev: Dev, maps: seq<Mapping>) returns (failed: seq<Mapping>)
    modifies k`fw, k`chains, k`local, k`states, tracker
    ensures (Lans(Natting(k.fw, k.local), tracker.tracked), failed)
         == MappingsApplied(Lans(Natting(old(k.fw), old(k.local)), old(tracker.tracked)), dev, maps, [], k.faults)
    ensures LocalOnly(old(k.states), k.states, k.Now())
    ensures LocalHeld(old(k.states), k.states, old(k.local), k.local, {})
    ensures ChainsHeld(old(k.chains), k.chains, old(k.fw), k.fw, {})
  {
    failed := [];
    ghost var all := MappingsApplied(Lans(Natting(k.fw, k.local), tracker.tracked), dev, maps, failed, k.faults);
    for i := 0 to |maps|
      invariant MappingsApplied(Lans(Natting(k.fw, k.local), tracker.tracked), dev, maps[i..], failed, k.faults) == all
      invariant LocalOnly(old(k.states), k.states, k.Now())
      invariant LocalHeld(old(k.states), k.states, old(k.local), k.local, {})
      invariant ChainsHeld(old(k.chains), k.chains, old(k.fw), k.fw, {})
    {
      assert maps[i..][1..] == maps[i + 1..];
      var ok := ApplyMapping(k, tracker, dev, maps[i]);
      if !ok {
        failed := failed + [maps[i]];
      }
    }
  }

  method RemoveStale(k: Kernel, tracker: Tracker, dev: Dev, wanted: seq<Mapping>)
    modifies k`fw, k`chains, k`local, k`states, tracker
    ensures Lans(Natting(k.fw, k.local), tracker.tracked)
         == StaleRemoved(Lans(Natting(old(k.fw), old(k.local)), old(tracker.tracked)), dev, old(tracker.tracked),
                         wanted, k.faults)
    ensures LocalOnly(old(k.states), k.states, k.Now())
    ensures LocalHeld(old(k.states), k.states, old(k.local), k.local, StaleShadows(old(tracker.tracked), wanted))
    ensures ChainsHeld(old(k.chains), k.chains, old(k.fw), k.fw, StaleEntries(dev, old(tracker.tracked), wanted))
  {
    var listed := tracker.tracked;
    ghost var all := StaleRemoved(Lans(Natting(k.fw, k.local), tracker.tracked), dev, listed, wanted, k.faults);
    for i := 0 to |listed|
      invariant StaleRemoved(Lans(Natting(k.fw, k.local), tracker.tracked), dev, listed[i..], wanted, k.faults) == all
      invariant LocalOnly(old(k.states), k.states, k.Now())
      invariant LocalHeld(old(k.states), k.states, old(k.local), k.local, StaleShadows(listed, wanted))
      invariant ChainsHeld(old(k.chains), k.chains, old(k.fw), k.fw, StaleEntries(dev, listed, wanted))
    {
      assert listed[i..][1..] == listed[i + 1..];
      if listed[i] !in wanted {
        ghost var fw1, local1, states1, chains1 := k.fw, k.local, k.states, k.chains;
        RemoveNetmap(k, dev, listed[i]);
        tracker.Forget(listed[i], k.faults);
        LocalOnwards(old(k.states), states1, k.states, old(k.local), local1, k.local, StaleShadows(listed, wanted),
                     {listed[i].shadow});
        HeldOnwards(old(k.chains), chains1, k.chains, old(k.fw), fw1, k.fw, StaleEntries(dev, listed, wanted),
                    MappingEntries(dev, listed[i]));
      }
    }
  }

  method ReconcileNetmaps(k: Kernel, tracker: Tracker, dev: Dev, maps: seq<Mapping>)
      returns (failed: seq<Mapping>, ok: bool)
    modifies k`fw, k`chains, k`local, k`states, tracker
    ensures (Lans(Natting(k.fw, k.local), tracker.tracked), failed, ok)
         == NetmapPass(Lans(Natting(old(k.fw), old(k.local)), old(tracker.tracked)), dev, maps, k.faults)
    ensures LocalOnly(old(k.states), k.states, k.Now())
    ensures LocalHeld(old(k.states), k.states, old(k.local), k.local, StaleShadows(old(tracker.tracked), maps))
    ensures ChainsHeld(old(k.chains), k.chains, old(k.fw), k.fw, StaleEntries(dev, old(tracker.tracked), maps))
  {
    ghost var s := Lans(Natting(k.fw, k.local), tracker.tracked);
    failed := ApplyMappings(k, tracker, dev, maps);
    StaleOnesAreOld(s, dev, maps, [], k.faults);
    ghost var fw1, local1, states1, chains1 := k.fw, k.local, k.states, k.chains;
    ok := k.Show(TrackList);
    if ok {
      ghost var listed := tracker.tracked;
      RemoveStale(k, tracker, dev, maps);
      LocalOnwards(old(k.states), states1, k.states, s.base.local, local1, k.local, StaleShadows(s.tracked, maps),
                   StaleShadows(listed, maps));
      HeldOnwards(old(k.chains), chains1, k.chains, s.base.fw, fw1, k.fw, StaleEntries(dev, s.tracked, maps),
                  StaleEntries(dev, listed, maps));
    }
  }

  /** The first loop remembers nothing that is not wanted. */
  lemma {:induction false} StaleOnesAreOld(s: Lans, dev: Dev, maps: seq<Mapping>, failed: seq<Mapping>, f: set<Cmd>)
    ensures forall x :: x in MappingsApplied(s, dev, maps, failed, f).0.tracked ==> x in s.tracked || x in maps
    decreases maps
  {
    if maps != [] {
      var (next, ok) := MappingApplied(s, dev, maps[0], f);
      StaleOnesAreOld(next, dev, maps[1..], if ok then failed else failed + [maps[0]], f);
    }
  }

  /** A complete wanted mapping that shares nothing with one to be removed is complete at every moment of a
      pass: whatever the chains and the local routes are like, as long as they hold what they are to hold. */
  lemma CompleteThroughout(was: Natting, fw: Firewall, local: set<Prefix>, dev: Dev, tracked: seq<Mapping>,
                           maps: seq<Mapping>, m: Mapping)
    requires RulesStay(was.fw, fw, StaleEntries(dev, tracked, maps)) && was.local - StaleShadows(tracked, maps) <= local
    requires Complete(was, dev, m) && forall x :: x in tracked && x !in maps ==> !Share(m, x)
    ensures Complete(Natting(fw, local), dev, m)
  {
  }

  // ------------------------------------------------------------ what a pass does

  /** `r` is one of the rules of mapping `m`, in chain `c`. */
  predicate RuleOf(dev: Dev, m: Mapping, c: Chain, r: Rule) {
    Entry(c, r) in MappingEntries(dev, m)
  }

  /** A mapping remembered from before that the plan no longer has. */
  predicate Stale(s: Lans, maps: seq<Mapping>, x: Mapping) {
    x in s.tracked && x !in maps
  }

  /** Some wanted mapping has the rule. */
  predicate Wanted(dev: Dev, maps: seq<Mapping>, e: Entry) {
    exists m :: m in maps && e in MappingEntries(dev, m)
  }

  /** How many mappings that are remembered and not wanted have the rule. */
  function Claims(dev: Dev, tracked: seq<Mapping>, maps: seq<Mapping>, e: Entry): nat {
    if tracked == [] then 0
    else (if tracked[0] !in maps && e in MappingEntries(dev, tracked[0]) then 1 else 0)
         + Claims(dev, tracked[1..], maps, e)
  }

  /** `n` copies, and at least one of a rule that is wanted. */
  function AtLeastOne(n: nat, wanted: bool): nat { if n == 0 && wanted then 1 else n }

  /** What `claims` removals leave of `n` copies. */
  function Left(n: nat, claims: nat): nat {
    if n <= REMOVE_LIMIT * claims then 0 else n - REMOVE_LIMIT * claims
  }

  function CountIn(fw: Firewall, e: Entry): nat { Copies(ChainOf(fw, e.chain), e.rule) }

  lemma {:induction false} ClaimsMeaning(dev: Dev, tracked: seq<Mapping>, maps: seq<Mapping>, e: Entry)
    ensures Claims(dev, tracked, maps, e) > 0 <==>
              exists x :: x in tracked && x !in maps && e in MappingEntries(dev, x)
    decreases tracked
  {
    if tracked != [] {
      ClaimsMeaning(dev, tracked[1..], maps, e);
      assert forall x :: x in tracked <==> x == tracked[0] || x in tracked[1..];
    }
  }

  lemma {:induction false} ClaimsOfAppended(dev: Dev, tracked: seq<Mapping>, m: Mapping, maps: seq<Mapping>, e: Entry)
    requires m in maps
    ensures Claims(dev, tracked + [m], maps, e) == Claims(dev, tracked, maps, e)
  {
    if tracked == [] {
      assert tracked + [m] == [m];
    } else {
      assert (tracked + [m])[1..] == tracked[1..] + [m];
      ClaimsOfAppended(dev, tracked[1..], m, maps, e);
    }
  }

  /** Copies after a call that did not throw, whatever failed in it. */
  lemma AppliedCopies(s: Natting, dev: Dev, m: Mapping, f: set<Cmd>, e: Entry)
    ensures var (after, ok) := NetmapApplied(s, dev, m, f);
      && CountIn(s.fw, e) <= CountIn(after.fw, e)
      && (ok ==> CountIn(after.fw, e) ==
                   CopiesAfter(CountIn(s.fw, e), if e in MappingEntries(dev, m) then 1 else 0, e, f))
  {
    var fw1 := RuleEnsured(s.fw, Prerouting, InRule(dev, m), f).0;
    var fw2 := RuleEnsured(fw1, Postrouting, OutRule(dev, m), f).0;
    EnsuringStacksExactly(s.fw, Prerouting, InRule(dev, m), f, e.chain, e.rule);
    EnsuringStacksExactly(fw1, Postrouting, OutRule(dev, m), f, e.chain, e.rule);
    EnsuringStacksExactly(fw2, Postrouting, LanMasquerade(dev, m.physical), f, e.chain, e.rule);
  }

  lemma {:induction false} AllAppliedCopies(s: Lans, dev: Dev, maps: seq<Mapping>, wanted: seq<Mapping>, e: Entry)
    requires forall m :: m in maps ==> m in wanted
    ensures var (after, failed) := MappingsApplied(s, dev, maps, [], {});
      && failed == []
      && CountIn(after.base.fw, e) == AtLeastOne(CountIn(s.base.fw, e), Wanted(dev, maps, e))
      && Claims(dev, after.tracked, wanted, e) == Claims(dev, s.tracked, wanted, e)
    decreases maps
  {
    if maps != [] {
      AppliedExactly(s.base, dev, maps[0], {}, e);
      AppliedCopies(s.base, dev, maps[0], {}, e);
      if maps[0] !in s.tracked {
        ClaimsOfAppended(dev, s.tracked, maps[0], wanted, e);
      }
      AllAppliedCopies(MappingApplied(s, dev, maps[0], {}).0, dev, maps[1..], wanted, e);
      assert forall w :: w in maps <==> w == maps[0] || w in maps[1..];
    }
  }

  lemma {:induction false} AllAppliedLocal(s: Lans, dev: Dev, maps: seq<Mapping>, p: Prefix, m: Mapping)
    ensures var after := MappingsApplied(s, dev, maps, [], {}).0;
      && (p in after.base.local <==> p in s.base.local || exists w :: w in maps && p == w.shadow)
      && (m in after.tracked <==> m in s.tracked || m in maps)
    decreases maps
  {
    if maps != [] {
      AppliedExactly(s.base, dev, maps[0], {}, Entry(Forward, LanMasquerade(dev, p)));
      AllAppliedLocal(MappingApplied(s, dev, maps[0], {}).0, dev, maps[1..], p, m);
      assert forall w :: w in maps <==> w == maps[0] || w in maps[1..];
    }
  }

  lemma RuleRemovedCopies(fw: Firewall, c: Chain, r: Rule, e: Entry)
    ensures CountIn(RuleRemoved(fw, c, r, {}), e) == Left(CountIn(fw, e), if e == Entry(c, r) then 1 else 0)
  {
    RemoveCopiesMeaning(ChainOf(fw, c), r, REMOVE_LIMIT);
    if e.chain == c && e.rule != r {
      OtherCopiesStay(ChainOf(fw, c), r, REMOVE_LIMIT, e.rule);
    }
  }

  lemma {:induction false} OtherCopiesStay(xs: seq<Rule>, x: Rule, n: nat, y: Rule)
    requires x != y
    ensures Copies(RemoveCopies(xs, x, n), y) == Copies(xs, y)
    decreases xs
  {
    if xs != [] && n > 0 {
      OtherCopiesStay(xs[1..], x, if xs[0] == x then n - 1 else n, y);
      var rest := RemoveCopies(xs[1..], x, n);
      assert ([xs[0]] + rest)[1..] == rest;
    }
  }

  lemma RemovedCopies(s: Natting, dev: Dev, m: Mapping, e: Entry)
    ensures CountIn(NetmapRemoved(s, dev, m, {}).fw, e)
         == Left(CountIn(s.fw, e), if e in MappingEntries(dev, m) then 1 else 0)
  {
    var fw1 := RuleRemoved(s.fw, Prerouting, InRule(dev, m), {});
    var fw2 := RuleRemoved(fw1, Postrouting, OutRule(dev, m), {});
    RuleRemovedCopies(s.fw, Prerouting, InRule(dev, m), e);
    RuleRemovedCopies(fw1, Postrouting, OutRule(dev, m), e);
    RuleRemovedCopies(fw2, Postrouting, LanMasquerade(dev, m.physical), e);
  }

  lemma {:induction false} AllRemovedCopies(s: Lans, dev: Dev, listed: seq<Mapping>, wanted: seq<Mapping>, e: Entry)
    ensures CountIn(StaleRemoved(s, dev, listed, wanted, {}).base.fw, e)
         == Left(CountIn(s.base.fw, e), Claims(dev, listed, wanted, e))
    decreases listed
  {
    if listed != [] {
      if listed[0] in wanted {
        AllRemovedCopies(s, dev, listed[1..], wanted, e);
      } else {
        RemovedCopies(s.base, dev, listed[0], e);
        var next := Lans(NetmapRemoved(s.base, dev, listed[0], {}), Without(s.tracked, listed[0]));
        AllRemovedCopies(next, dev, listed[1..], wanted, e);
      }
    }
  }

  lemma {:induction false} AllRemovedLocal(s: Lans, dev: Dev, listed: seq<Mapping>, wanted: seq<Mapping>, p: Prefix,
                                           m: Mapping)
    ensures var after := StaleRemoved(s, dev, listed, wanted, {});
      && (p in after.base.local <==> p in s.base.local && !exists w :: w in listed && w !in wanted && p == w.shadow)
      && (m in after.tracked <==> m in s.tracked && !(m in listed && m !in wanted))
    decreases listed
  {
    if listed != [] {
      assert forall w :: w in listed <==> w == listed[0] || w in listed[1..];
      if listed[0] in wanted {
        AllRemovedLocal(s, dev, listed[1..], wanted, p, m);
      } else {
        WithoutMembers(s.tracked, listed[0], m);
        var next := Lans(NetmapRemoved(s.base, dev, listed[0], {}), Without(s.tracked, listed[0]));
        AllRemovedLocal(next, dev, listed[1..], wanted, p, m);
      }
    }
  }

  /** An error-free pass, rule by rule and to the copy: it adds a rule some wanted mapping needs, and then takes
      out 33 copies for each stale mapping that has it, in this order, so a rule both have is gone unless it
      was stacked. */
  lemma PassCopies(s: Lans, dev: Dev, maps: seq<Mapping>, e: Entry)
    ensures var (after, failed, ok) := NetmapPass(s, dev, maps, {});
      && failed == [] && ok
      && CountIn(after.base.fw, e)
         == Left(AtLeastOne(CountIn(s.base.fw, e), Wanted(dev, maps, e)), Claims(dev, s.tracked, maps, e))
  {
    var up := MappingsApplied(s, dev, maps, [], {}).0;
    AllAppliedCopies(s, dev, maps, maps, e);
    AllRemovedCopies(up, dev, up.tracked, maps, e);
  }

  /** The local ranges after an error-free pass, and what is remembered. */
  lemma PassLocal(s: Lans, dev: Dev, maps: seq<Mapping>, p: Prefix, m: Mapping)
    ensures var after := NetmapPass(s, dev, maps, {}).0;
      && (p in after.base.local <==>
            (p in s.base.local || exists w :: w in maps && p == w.shadow)
            && !exists w :: Stale(s, maps, w) && p == w.shadow)
      && (m in after.tracked <==> m in maps)
  {
    var up := MappingsApplied(s, dev, maps, [], {}).0;
    forall w: Mapping ensures w in up.tracked <==> w in s.tracked || w in maps {
      AllAppliedLocal(s, dev, maps, p, w);
    }
    AllAppliedLocal(s, dev, maps, p, m);
    AllRemovedLocal(up, dev, up.tracked, maps, p, m);
    assert forall w :: w in up.tracked && w !in maps <==> Stale(s, maps, w);
  }

  /** Which mappings fail: all come up exactly when each of their rules can be ensured beforehand. */
  lemma {:induction false} AllAppliedExactly(s: Lans, dev: Dev, maps: seq<Mapping>, failed: seq<Mapping>, f: set<Cmd>)
    ensures failed <= MappingsApplied(s, dev, maps, failed, f).1
    ensures MappingsApplied(s, dev, maps, failed, f).1 == failed <==>
              forall m, e :: m in maps && e in MappingEntries(dev, m) ==> CanEnsure(s.base.fw, e, f)
    decreases maps
  {
    if maps != [] {
      var (next, ok) := MappingApplied(s, dev, maps[0], f);
      var more := if ok then failed else failed + [maps[0]];
      AllAppliedExactly(next, dev, maps[1..], more, f);
      forall e ensures CanEnsure(next.base.fw, e, f) <==> CanEnsure(s.base.fw, e, f) {
        AppliedExactly(s.base, dev, maps[0], f, e);
      }
      AppliedExactly(s.base, dev, maps[0], f, Entry(Forward, LanMasquerade(dev, ANY)));
      assert forall m :: m in maps <==> m == maps[0] || m in maps[1..];
    }
  }

  // ------------------------------------------------------------- main results

  /** Two mappings get into each other's way. */
  predicate Share(m: Mapping, x: Mapping) {
    m.shadow == x.shadow || m.physical == x.physical
  }

  /** What one pass needs to complete a wanted mapping: no stale one has its shadow, and a stale one has its LAN
      only if the MASQUERADE they share is stacked beyond what their removal takes out. */
  ghost predicate OnePassDoes(s: Lans, dev: Dev, maps: seq<Mapping>, m: Mapping) {
    && (forall x :: Stale(s, maps, x) ==> x.shadow != m.shadow)
    && OnePassKeeps(s, dev, maps, Entry(Postrouting, LanMasquerade(dev, m.physical)))
  }

  lemma CompleteAfterPass(s: Lans, dev: Dev, maps: seq<Mapping>, m: Mapping)
    requires m in maps
    ensures Complete(NetmapPass(s, dev, maps, {}).0.base, dev, m) <==> OnePassDoes(s, dev, maps, m)
  {
    var after := NetmapPass(s, dev, maps, {}).0;
    var masq := Entry(Postrouting, LanMasquerade(dev, m.physical));
    forall e | e in MappingEntries(dev, m)
      ensures Present(after.base.fw, e) <==> e == masq ==> OnePassKeeps(s, dev, maps, masq)
    {
      PassCopies(s, dev, maps, e);
      CopiesOfMembers(ChainOf(after.base.fw, e.chain), e.rule);
      assert Wanted(dev, maps, e);
      if e != masq {
        ClaimsMeaning(dev, s.tracked, maps, e);
      }
    }
    PassLocal(s, dev, maps, m.shadow, m);
    CompleteMeaning(after.base, dev, m);
    assert masq in MappingEntries(dev, m);
    assert Entry(Prerouting, InRule(dev, m)) in MappingEntries(dev, m);
    assert Entry(Postrouting, OutRule(dev, m)) in MappingEntries(dev, m);
  }

  predicate OnePassKeeps(s: Lans, dev: Dev, maps: seq<Mapping>, e: Entry) {
    var claims := Claims(dev, s.tracked, maps, e);
    claims == 0 || CountIn(s.base.fw, e) > REMOVE_LIMIT * claims
  }

  /** New mappings go in before old ones come out. Unless MASQUERADEs are stacked, one pass does the whole job
      if and only if no mapping to be removed shares its shadow or its LAN with one to be kept. */
  lemma OnePassSufficesExactlyWithoutSharing(s: Lans, dev: Dev, maps: seq<Mapping>)
    requires forall x :: Stale(s, maps, x) ==>
               CountIn(s.base.fw, Entry(Postrouting, LanMasquerade(dev, x.physical))) <= REMOVE_LIMIT
    ensures (forall m :: m in maps ==> Complete(NetmapPass(s, dev, maps, {}).0.base, dev, m)) <==>
            (forall m, x :: m in maps && Stale(s, maps, x) ==> !Share(m, x))
  {
    forall m | m in maps
      ensures Complete(NetmapPass(s, dev, maps, {}).0.base, dev, m) <==> forall x :: Stale(s, maps, x) ==> !Share(m, x)
    {
      var e := Entry(Postrouting, LanMasquerade(dev, m.physical));
      CompleteAfterPass(s, dev, maps, m);
      ClaimsMeaning(dev, s.tracked, maps, e);
      forall x ensures e in MappingEntries(dev, x) <==> x.physical == m.physical {
      }
      assert forall x :: Stale(s, maps, x) <==> x in s.tracked && x !in maps;
    }
  }

  /** Changing a site's LAN is such a case: the new mapping has lost its local route after one pass. */
  lemma ChangedLanIsIncompleteAfterOnePass(dev: Dev, shadow: Prefix, before: Prefix, after: Prefix)
    requires before != after
    ensures var s := Lans(Natting(Firewall([], [], []), {}), []);
            var settled := NetmapPass(s, dev, [Mapping(shadow, before)], {}).0;
            var changed := NetmapPass(settled, dev, [Mapping(shadow, after)], {}).0;
      && Complete(settled.base, dev, Mapping(shadow, before))
      && !Complete(changed.base, dev, Mapping(shadow, after))
      && shadow !in changed.base.local
  {
    var s := Lans(Natting(Firewall([], [], []), {}), []);
    var was, next := Mapping(shadow, before), Mapping(shadow, after);
    var settled := NetmapPass(s, dev, [was], {}).0;
    var e := Entry(Postrouting, LanMasquerade(dev, before));
    CompleteAfterPass(s, dev, [was], was);
    ClaimsMeaning(dev, s.tracked, [was], e);
    PassLocal(s, dev, [was], shadow, was);
    assert Stale(settled, [next], was);
    PassLocal(settled, dev, [next], shadow, next);
  }

  /** From any state two error-free passes do the whole job: every wanted mapping is complete and exactly the
      wanted ones are remembered. Of a stale one nothing is left that no wanted one needs, but for copies
      beyond the 33 that each removal of a mapping with that rule takes out. */
  lemma TwoPassesConverge(s: Lans, dev: Dev, maps: seq<Mapping>)
    ensures var twice := NetmapPass(NetmapPass(s, dev, maps, {}).0, dev, maps, {}).0;
      && (forall m :: m in maps ==> Complete(twice.base, dev, m))
      && (forall m :: m in twice.tracked <==> m in maps)
      && (forall x :: Stale(s, maps, x) && x.shadow in twice.base.local ==>
          exists m :: m in maps && m.shadow == x.shadow)
      && (forall e :: !Wanted(dev, maps, e) ==>
            CountIn(twice.base.fw, e) == Left(CountIn(s.base.fw, e), Claims(dev, s.tracked, maps, e)))
  {
    var once := NetmapPass(s, dev, maps, {}).0;
    var twice := NetmapPass(once, dev, maps, {}).0;
    PassTracks(s, dev, maps);
    PassTracks(once, dev, maps);
    forall e ensures Claims(dev, once.tracked, maps, e) == 0 {
      ClaimsMeaning(dev, once.tracked, maps, e);
    }
    forall m | m in maps ensures Complete(twice.base, dev, m) {
      CompleteAfterPass(once, dev, maps, m);
    }
    forall e | !Wanted(dev, maps, e)
      ensures CountIn(twice.base.fw, e) == Left(CountIn(s.base.fw, e), Claims(dev, s.tracked, maps, e))
    {
      PassCopies(s, dev, maps, e);
      PassCopies(once, dev, maps, e);
    }
    forall x | Stale(s, maps, x) && x.shadow in twice.base.local
      ensures exists m :: m in maps && m.shadow == x.shadow
    {
      PassLocal(s, dev, maps, x.shadow, x);
      PassLocal(once, dev, maps, x.shadow, x);
    }
  }

  /** So the rule of a stale mapping that no wanted one needs is left exactly if it was stacked that high. */
  lemma LeftBehindExactly(s: Lans, dev: Dev, maps: seq<Mapping>, e: Entry)
    requires !Wanted(dev, maps, e)
    ensures var twice := NetmapPass(NetmapPass(s, dev, maps, {}).0, dev, maps, {}).0;
      Present(twice.base.fw, e) <==> CountIn(s.base.fw, e) > REMOVE_LIMIT * Claims(dev, s.tracked, maps, e)
  {
    var twice := NetmapPass(NetmapPass(s, dev, maps, {}).0, dev, maps, {}).0;
    TwoPassesConverge(s, dev, maps);
    CopiesOfMembers(ChainOf(twice.base.fw, e.chain), e.rule);
  }

  /** Whatever the chains hold, a pass ends with exactly the wanted mappings remembered. */
  lemma PassTracks(s: Lans, dev: Dev, maps: seq<Mapping>)
    ensures var once := NetmapPass(s, dev, maps, {}).0;
      && (forall m :: m in once.tracked <==> m in maps)
      && (forall m :: !Stale(once, maps, m))
  {
    forall m ensures m in NetmapPass(s, dev, maps, {}).0.tracked <==> m in maps {
      PassLocal(s, dev, maps, m.shadow, m);
    }
  }

  // -------------------------------------------------------------- idempotence

  /** Every wanted mapping is complete and remembered, and no other is remembered. */
  ghost predicate NetmapsSettled(s: Lans, dev: Dev, maps: seq<Mapping>) {
    && (forall m :: m in maps ==> Complete(s.base, dev, m))
    && (forall m :: m in s.tracked <==> m in maps)
  }

  /** Applying a complete mapping does nothing exactly when its rules are seen, and changes nothing unless one is
      stacked. */
  lemma CompleteStaysExactly(s: Natting, dev: Dev, m: Mapping, f: set<Cmd>)
    requires Complete(s, dev, m)
    ensures NetmapApplied(s, dev, m, f) == (s, true) <==> forall e :: e in MappingEntries(dev, m) ==> Seen(e, f)
    ensures (forall e :: e in MappingEntries(dev, m) ==> NotStacked(e, f)) ==> NetmapApplied(s, dev, m, f).0 == s
  {
    CompleteMeaning(s, dev, m);
    assert LocalClaimed(s.local, m.shadow, f) == s.local;
    assert Entry(Prerouting, InRule(dev, m)) in MappingEntries(dev, m);
    assert Entry(Postrouting, OutRule(dev, m)) in MappingEntries(dev, m);
    assert Entry(Postrouting, LanMasquerade(dev, m.physical)) in MappingEntries(dev, m);
    if NetmapApplied(s, dev, m, f) == (s, true) {
      forall e | e in MappingEntries(dev, m) ensures Seen(e, f) {
        AppliedExactly(s, dev, m, f, e);
        AppliedCopies(s, dev, m, f, e);
        CopiesOfMembers(ChainOf(s.fw, e.chain), e.rule);
      }
    }
  }

  lemma {:induction false} AppliedNeverDrops(s: Lans, dev: Dev, maps: seq<Mapping>, failed: seq<Mapping>, f: set<Cmd>,
                                             e: Entry)
    ensures CountIn(s.base.fw, e) <= CountIn(MappingsApplied(s, dev, maps, failed, f).0.base.fw, e)
    decreases maps
  {
    if maps != [] {
      var (next, ok) := MappingApplied(s, dev, maps[0], f);
      AppliedCopies(s.base, dev, maps[0], f, e);
      AppliedNeverDrops(next, dev, maps[1..], if ok then failed else failed + [maps[0]], f, e);
    }
  }

  /** Some copy that is more cannot be undone by what comes after. */
  lemma StackedForGood(s: Lans, dev: Dev, maps: seq<Mapping>, failed: seq<Mapping>, f: set<Cmd>)
    requires maps != [] && Complete(s.base, dev, maps[0])
    requires !forall e :: e in MappingEntries(dev, maps[0]) ==> Seen(e, f)
    ensures MappingsApplied(s, dev, maps, failed, f) != (s, failed)
  {
    var m := maps[0];
    var (next, ok) := MappingApplied(s, dev, m, f);
    if ok {
      var e :| e in MappingEntries(dev, m) && !Seen(e, f);
      AppliedExactly(s.base, dev, m, f, e);
      AppliedCopies(s.base, dev, m, f, e);
      AppliedNeverDrops(next, dev, maps[1..], failed, f, e);
      assert CanEnsure(s.base.fw, e, f);
    } else {
      AllAppliedExactly(next, dev, maps[1..], failed + [m], f);
    }
  }

  lemma {:induction false} CompleteMappingsStay(s: Lans, dev: Dev, maps: seq<Mapping>, failed: seq<Mapping>,
                                                f: set<Cmd>)
    requires forall m :: m in maps ==> Complete(s.base, dev, m) && m in s.tracked
    ensures MappingsApplied(s, dev, maps, failed, f) == (s, failed) <==>
              forall m, e :: m in maps && e in MappingEntries(dev, m) ==> Seen(e, f)
    ensures (forall m, e :: m in maps && e in MappingEntries(dev, m) ==> NotStacked(e, f)) ==>
              MappingsApplied(s, dev, maps, failed, f).0 == s
    decreases maps
  {
    if maps != [] {
      var (next, ok) := MappingApplied(s, dev, maps[0], f);
      assert forall m :: m in maps <==> m == maps[0] || m in maps[1..];
      CompleteStaysExactly(s.base, dev, maps[0], f);
      CompleteMappingsStay(s, dev, maps[1..], if ok then failed else failed + [maps[0]], f);
      if !forall e :: e in MappingEntries(dev, maps[0]) ==> Seen(e, f) {
        StackedForGood(s, dev, maps, failed, f);
      }
    }
  }

  lemma {:induction false} WantedAreNotRemoved(s: Lans, dev: Dev, listed: seq<Mapping>, wanted: seq<Mapping>,
                                               f: set<Cmd>)
    requires forall m :: m in listed ==> m in wanted
    ensures StaleRemoved(s, dev, listed, wanted, f) == s
    decreases listed
  {
    if listed != [] {
      WantedAreNotRemoved(s, dev, listed[1..], wanted, f);
    }
  }

  /** Once settled, a pass does nothing exactly when it sees what is there, and changes nothing unless a rule's
      check fails and its append works. */
  lemma SettledNetmapsStayExactly(s: Lans, dev: Dev, maps: seq<Mapping>, f: set<Cmd>)
    requires NetmapsSettled(s, dev, maps)
    ensures NetmapPass(s, dev, maps, f).0 == s && NetmapPass(s, dev, maps, f).1 == [] <==>
              forall m, e :: m in maps && e in MappingEntries(dev, m) ==> Seen(e, f)
    ensures (forall m, e :: m in maps && e in MappingEntries(dev, m) ==> NotStacked(e, f)) ==>
              NetmapPass(s, dev, maps, f).0 == s
  {
    var up := MappingsApplied(s, dev, maps, [], f).0;
    CompleteMappingsStay(s, dev, maps, [], f);
    StaleOnesAreOld(s, dev, maps, [], f);
    WantedAreNotRemoved(up, dev, up.tracked, maps, f);
  }

  // ------------------------------------------------- what is remembered, whatever fails

  /** A mapping is remembered after the first loop exactly if it was before, or it is wanted, each of its rules can be
      ensured, and Redis takes it. */
  lemma {:induction false} RememberedExactly(s: Lans, dev: Dev, maps: seq<Mapping>, failed: seq<Mapping>, f: set<Cmd>,
                                             m: Mapping)
    ensures m in MappingsApplied(s, dev, maps, failed, f).0.tracked <==>
              || m in s.tracked
              || (m in maps && TrackAdd(m) !in f
                  && forall e :: e in MappingEntries(dev, m) ==> CanEnsure(s.base.fw, e, f))
    decreases maps
  {
    if maps != [] {
      var (next, ok) := MappingApplied(s, dev, maps[0], f);
      assert forall w :: w in maps <==> w == maps[0] || w in maps[1..];
      forall e ensures CanEnsure(next.base.fw, e, f) <==> CanEnsure(s.base.fw, e, f) {
        AppliedExactly(s.base, dev, maps[0], f, e);
      }
      AppliedExactly(s.base, dev, maps[0], f, Entry(Forward, LanMasquerade(dev, ANY)));
      RememberedExactly(next, dev, maps[1..], if ok then failed else failed + [maps[0]], f, m);
    }
  }

  /** A mapping that is newly remembered is in its chains, unless there is no iptables at all. */
  lemma {:induction false} RememberedArePresent(s: Lans, dev: Dev, maps: seq<Mapping>, failed: seq<Mapping>,
                                                f: set<Cmd>, m: Mapping, e: Entry)
    requires IptVersion !in f && e in MappingEntries(dev, m)
    requires m in s.tracked ==> Present(s.base.fw, e)
    ensures var after := MappingsApplied(s, dev, maps, failed, f).0;
            m in after.tracked ==> Present(after.base.fw, e)
    decreases maps
  {
    if maps != [] {
      var (next, ok) := MappingApplied(s, dev, maps[0], f);
      AppliedCopies(s.base, dev, maps[0], f, e);
      CopiesOfMembers(ChainOf(s.base.fw, e.chain), e.rule);
      CopiesOfMembers(ChainOf(next.base.fw, e.chain), e.rule);
      if ok {
        AppliedExactly(s.base, dev, maps[0], f, e);
      }
      RememberedArePresent(next, dev, maps[1..], if ok then failed else failed + [maps[0]], f, m, e);
    }
  }

  /** What is still remembered after the removals: what is wanted, and what Redis fails to forget. It is forgotten
      even if its rules could not be deleted. */
  lemma {:induction false} ForgottenExactly(s: Lans, dev: Dev, listed: seq<Mapping>, wanted: seq<Mapping>, f: set<Cmd>,
                                            m: Mapping)
    ensures m in StaleRemoved(s, dev, listed, wanted, f).tracked <==>
              m in s.tracked && (m !in listed || m in wanted || TrackDel(m) in f)
    decreases listed
  {
    if listed != [] {
      assert forall w :: w in listed <==> w == listed[0] || w in listed[1..];
      var next := if listed[0] in wanted then s
                  else Lans(NetmapRemoved(s.base, dev, listed[0], f), Forgotten(s.tracked, listed[0], f));
      WithoutMembers(s.tracked, listed[0], m);
      ForgottenExactly(next, dev, listed[1..], wanted, f, m);
    }
  }

  /** One removal takes out 33 copies at the most. */
  lemma RemovalTakes33(fw: Firewall, c: Chain, r: Rule)
    ensures var n := CountIn(fw, Entry(c, r));
            CountIn(RuleRemoved(fw, c, r, {}), Entry(c, r)) == if n <= 33 then 0 else n - 33
  {
    RuleRemovedCopies(fw, c, r, Entry(c, r));
  }

  // ------------------------------------------------- the other chain

  lemma {:induction false} AppliedLeavesForward(s: Lans, dev: Dev, maps: seq<Mapping>, failed: seq<Mapping>,
                                                f: set<Cmd>)
    ensures MappingsApplied(s, dev, maps, failed, f).0.base.fw.forward == s.base.fw.forward
    decreases maps
  {
    if maps != [] {
      var (next, ok) := MappingApplied(s, dev, maps[0], f);
      AppliedLeavesForward(next, dev, maps[1..], if ok then failed else failed + [maps[0]], f);
    }
  }

  lemma {:induction false} RemovedLeavesForward(s: Lans, dev: Dev, listed: seq<Mapping>, wanted: seq<Mapping>,
                                                f: set<Cmd>)
    ensures StaleRemoved(s, dev, listed, wanted, f).base.fw.forward == s.base.fw.forward
    decreases listed
  {
    if listed != [] {
      var next := if listed[0] in wanted then s
                  else Lans(NetmapRemoved(s.base, dev, listed[0], f), Forgotten(s.tracked, listed[0], f));
      RemovedLeavesForward(next, dev, listed[1..], wanted, f);
    }
  }

  /** LAN mappings are no matter for the FORWARD chain. */
  lemma PassLeavesForward(s: Lans, dev: Dev, maps: seq<Mapping>, f: set<Cmd>)
    ensures NetmapPass(s, dev, maps, f).0.base.fw.forward == s.base.fw.forward
  {
    var up := MappingsApplied(s, dev, maps, [], f).0;
    AppliedLeavesForward(s, dev, maps, [], f);
    RemovedLeavesForward(up, dev, up.tracked, maps, f);
  }
}
