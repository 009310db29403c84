// NAT, NETMAP and forwarding rules over ordered iptables chains (utils/net_router.js).
module NetRouter {
  import opened Wrappers
  import opened Ipv4
  import opened Kernel

  // --------------------------------------------------------- the rules it uses

  const ANY := DEFAULT_ROUTE

  /** Traffic from the mesh to the shadow is sent on to the LAN. */
  function InRule(dev: Dev, m: Mapping): Rule {
    Rule(Some(dev), None, ANY, m.shadow, false, "", Netmap(m.physical))
  }

  /** Traffic from the LAN leaves under its shadow address. */
  function OutRule(dev: Dev, m: Mapping): Rule {
    Rule(None, Some(dev), m.physical, ANY, false, "", Netmap(m.shadow))
  }

  function LanMasquerade(dev: Dev, physical: Prefix): Rule {
    Rule(None, Some(dev), physical, ANY, false, "", Masquerade)
  }

  function UplinkMasquerade(wan: Dev): Rule {
    Rule(None, Some(wan), ANY, ANY, false, "", Masquerade)
  }

  function ForwardRule(from: Dev, to: Dev, established: bool): Rule {
    Rule(Some(from), Some(to), ANY, ANY, established, "", Accept)
  }

  // -------------------------------------------------------------- chain lookup

  /** A packet as a chain sees it. `traits` are the extra matches it satisfies. */
  datatype Packet = Packet(inDev: Dev, outDev: Dev, src: Addr, dst: Addr, established: bool, traits: set<string>)

  predicate Matches(r: Rule, p: Packet) {
    && (r.inDev == None || r.inDev == Some(p.inDev))
    && (r.outDev == None || r.outDev == Some(p.outDev))
    && Contains(r.src, p.src) && Contains(r.dst, p.dst)
    && (r.established ==> p.established)
    && (r.extra == "" || r.extra in p.traits)
  }

  /** The rule that decides: the first that matches. Targets in `passing`, such as LOG, decide nothing. */
  function FirstMatch(chain: seq<Rule>, p: Packet, passing: set<string>): Option<Rule> {
    if chain == [] then None
    else if Matches(chain[0], p) && !(chain[0].target.Other? && chain[0].target.name in passing) then Some(chain[0])
    else FirstMatch(chain[1..], p, passing)
  }

  lemma {:induction false} FirstMatchOfConcat(a: seq<Rule>, b: seq<Rule>, p: Packet, passing: set<string>)
    ensures FirstMatch(a + b, p, passing)
         == if FirstMatch(a, p, passing).Some? then FirstMatch(a, p, passing) else FirstMatch(b, p, passing)
  {
    if a == [] {
      assert a + b == b;
    } else {
      assert (a + b)[1..] == a[1..] + b;
      FirstMatchOfConcat(a[1..], b, p, passing);
    }
  }

  // ------------------------------------------------------------- single rules

  /** A rule in its chain. */
  datatype Entry = Entry(chain: Chain, rule: Rule)

  /** `removeRule` sees the rule, if it is there, and can delete it. */
  predicate CanDelete(e: Entry, f: set<Cmd>) {
    IptVersion !in f && IptCheck(e.chain, e.rule) !in f && IptDelete(e.chain, e.rule) !in f
  }

  function RuleEnsured(fw: Firewall, c: Chain, r: Rule, f: set<Cmd>): (Firewall, bool) {
    if IptVersion in f || (r in ChainOf(fw, c) && IptCheck(c, r) !in f) then (fw, true)
    else if IptAppend(c, r) in f then (fw, false)
    else (WithChain(fw, c, ChainOf(fw, c) + [r]), true)
  }

  /** Without the first `n` entries equal to `x`. */
  function RemoveCopies<T(==)>(xs: seq<T>, x: T, n: nat): seq<T> {
    if xs == [] || n == 0 then xs
    else if xs[0] == x then RemoveCopies(xs[1..], x, n - 1)
    else [xs[0]] + RemoveCopies(xs[1..], x, n)
  }

  /** Without any entry equal to `x`. */
  function Without<T(==)>(xs: seq<T>, x: T): seq<T> {
    if xs == [] then []
    else if xs[0] == x then Without(xs[1..], x)
    else [xs[0]] + Without(xs[1..], x)
  }

  function Copies<T(==)>(xs: seq<T>, x: T): nat {
    if xs == [] then 0 else (if xs[0] == x then 1 else 0) + Copies(xs[1..], x)
  }

  /** More than this many copies are not removed in one call. */
  const REMOVE_LIMIT := 33

  function RuleRemoved(fw: Firewall, c: Chain, r: Rule, f: set<Cmd>): Firewall {
    if CanDelete(Entry(c, r), f) then WithChain(fw, c, RemoveCopies(ChainOf(fw, c), r, REMOVE_LIMIT)) else fw
  }

  lemma {:induction false} WithoutMembers<T>(xs: seq<T>, x: T, y: T)
    ensures y in Without(xs, x) <==> y in xs && y != x
  {
    if xs != [] {
      WithoutMembers(xs[1..], x, y);
    }
  }

  lemma {:induction false} CopiesOfConcat<T>(a: seq<T>, b: seq<T>, x: T)
    ensures Copies(a + b, x) == Copies(a, x) + Copies(b, x)
  {
    if a == [] {
      assert a + b == b;
    } else {
      assert (a + b)[1..] == a[1..] + b;
      CopiesOfConcat(a[1..], b, x);
    }
  }

  lemma {:induction false} CopiesOfMembers<T>(xs: seq<T>, x: T)
    ensures Copies(xs, x) > 0 <==> x in xs
  {
    if xs != [] {
      CopiesOfMembers(xs[1..], x);
    }
  }

  /** `removeRule` takes min(n, limit) copies out and keeps everything else in order. */
  lemma {:induction false} RemoveCopiesMeaning<T>(xs: seq<T>, x: T, n: nat)
    ensures Copies(RemoveCopies(xs, x, n), x) == if Copies(xs, x) <= n then 0 else Copies(xs, x) - n
    ensures Without(RemoveCopies(xs, x, n), x) == Without(xs, x)
    ensures Copies(xs, x) <= n ==> RemoveCopies(xs, x, n) == Without(xs, x)
    ensures |RemoveCopies(xs, x, n)| == |xs| - if Copies(xs, x) <= n then Copies(xs, x) else n
  {
    if xs == [] {
    } else if n == 0 {
      WithoutAbsent(xs, x);
    } else if xs[0] == x {
      RemoveCopiesMeaning(xs[1..], x, n - 1);
    } else {
      RemoveCopiesMeaning(xs[1..], x, n);
      var rest := RemoveCopies(xs[1..], x, n);
      assert ([xs[0]] + rest)[1..] == rest;
    }
  }

  lemma {:induction false} WithoutAbsent<T>(xs: seq<T>, x: T)
    ensures Copies(xs, x) == 0 ==> Without(xs, x) == xs
    ensures Copies(xs, x) <= |xs|
  {
    if xs != [] {
      WithoutAbsent(xs[1..], x);
    }
  }

  /** One more deletion removes one more copy. */
  lemma {:induction false} RemoveOneMore<T>(xs: seq<T>, x: T, n: nat)
    requires x in RemoveCopies(xs, x, n)
    ensures RemoveFirst(RemoveCopies(xs, x, n), x) == RemoveCopies(xs, x, n + 1)
  {
    if xs == [] {
    } else if xs[0] == x {
      if n > 0 {
        RemoveOneMore(xs[1..], x, n - 1);
      } else {
        assert RemoveCopies(xs[1..], x, 0) == xs[1..];
      }
    } else {
      assert RemoveCopies(xs, x, n) == [xs[0]] + RemoveCopies(xs[1..], x, n);
      RemoveOneMore(xs[1..], x, n);
    }
  }

  lemma {:induction false} WithoutOfAppended<T>(xs: seq<T>, x: T)
    ensures Without(xs + [x], x) == Without(xs, x)
  {
    if xs == [] {
      assert xs + [x] == [x];
    } else {
      assert (xs + [x])[1..] == xs[1..] + [x];
      WithoutOfAppended(xs[1..], x);
    }
  }

  /** How many copies there are when a rule of which there were `n` has been ensured `k` times: one more each
      time its check fails and its append works. */
  function CopiesAfter(n: nat, k: nat, e: Entry, f: set<Cmd>): nat {
    if IptVersion in f || IptAppend(e.chain, e.rule) in f then n
    else if IptCheck(e.chain, e.rule) in f then n + k
    else if n == 0 && k > 0 then 1
    else n
  }

  /** Ensuring a rule stacks it exactly when it is there, its check fails and its append works; it disturbs
      no other rule, in any chain. */
  lemma EnsuringStacksExactly(fw: Firewall, c: Chain, r: Rule, f: set<Cmd>, d: Chain, x: Rule)
    ensures var after, n := RuleEnsured(fw, c, r, f).0, Copies(ChainOf(fw, d), x);
      && Copies(ChainOf(after, d), x) == CopiesAfter(n, if Entry(d, x) == Entry(c, r) then 1 else 0, Entry(d, x), f)
      && Without(ChainOf(after, c), r) == Without(ChainOf(fw, c), r)
      && (d != c ==> ChainOf(after, d) == ChainOf(fw, d))
  {
    CopiesOfConcat(ChainOf(fw, d), [r], x);
    CopiesOfMembers(ChainOf(fw, d), x);
    WithoutOfAppended(ChainOf(fw, c), r);
  }

  // ------------------------------------------------------- moments of a call

  predicate Present(fw: Firewall, e: Entry) { e.rule in ChainOf(fw, e.chain) }

  /** Every rule of `was`, the operator's included, is in `s`, unless it is one of `gone`. */
  ghost predicate RulesStay(was: Firewall, s: Firewall, gone: set<Entry>) {
    forall e: Entry :: Present(was, e) && e !in gone ==> Present(s, e)
  }

  /** That holds after each command since `before`, and now. */
  ghost predicate ChainsHeld(before: seq<Firewall>, chains: seq<Firewall>, was: Firewall, now: Firewall,
                             gone: set<Entry>) {
    && before <= chains && RulesStay(was, now, gone)
    && forall i :: |before| <= i < |chains| ==> RulesStay(was, chains[i], gone)
  }

  lemma HeldOnwards(c0: seq<Firewall>, c1: seq<Firewall>, c2: seq<Firewall>,
                    was: Firewall, mid: Firewall, now: Firewall, gone: set<Entry>, more: set<Entry>)
    requires ChainsHeld(c0, c1, was, mid, gone) && ChainsHeld(c1, c2, mid, now, more) && more <= gone
    ensures ChainsHeld(c0, c2, was, now, gone)
  {
    forall i | |c0| <= i < |c2| ensures RulesStay(was, c2[i], gone) {
      if i < |c1| {
        assert c2[i] == c1[i];
      }
    }
  }

  lemma RemovalLeavesOthers(fw: Firewall, c: Chain, r: Rule, n: nat)
    ensures RulesStay(fw, WithChain(fw, c, RemoveCopies(ChainOf(fw, c), r, n)), {Entry(c, r)})
  {
    var xs := ChainOf(fw, c);
    RemoveCopiesMeaning(xs, r, n);
    forall y | y in xs && y != r ensures y in RemoveCopies(xs, r, n) {
      WithoutMembers(xs, r, y);
      WithoutMembers(RemoveCopies(xs, r, n), r, y);
    }
  }

  /** Adds the rule at the end unless an equal one is seen to be there. */
  method EnsureRule(k: Kernel, c: Chain, r: Rule) returns (ok: bool, changed: bool)
    modifies k`fw, k`chains
    ensures (k.fw, ok) == RuleEnsured(old(k.fw), c, r, k.faults)
    ensures changed <==> k.fw != old(k.fw)
    ensures ChainsHeld(old(k.chains), k.chains, old(k.fw), k.fw, {})
  {
    var tool := k.Show(IptVersion);
    if !tool {
      return true, false;
    }
    var present := k.Check(c, r);
    if present {
      return true, false;
    }
    ok := k.Append(c, r);
    changed := ok;
    assert ok ==> |ChainOf(k.fw, c)| == |ChainOf(old(k.fw), c)| + 1;
  }

  /** Deletes copies of the rule until none is seen, but never more than 33. */
  method RemoveRule(k: Kernel, c: Chain, r: Rule) returns (removed: nat)
    modifies k`fw, k`chains
    ensures k.fw == RuleRemoved(old(k.fw), c, r, k.faults)
    ensures removed == |ChainOf(old(k.fw), c)| - |ChainOf(k.fw, c)|
    ensures ChainsHeld(old(k.chains), k.chains, old(k.fw), k.fw, {Entry(c, r)})
  {
    removed := 0;
    var tool := k.Show(IptVersion);
    if !tool {
      return;
    }
    ghost var fw := k.fw;
    ghost var xs := ChainOf(fw, c);
    ghost var ys := xs;
    var present := k.Check(c, r);
    while present
      invariant removed < REMOVE_LIMIT && removed == |xs| - |ys|
      invariant k.fw == WithChain(fw, c, ys) && ys == RemoveCopies(xs, r, removed)
      invariant present == (r in ys && IptCheck(c, r) !in k.faults)
      invariant removed > 0 ==> CanDelete(Entry(c, r), k.faults)
      invariant ChainsHeld(old(k.chains), k.chains, fw, k.fw, {Entry(c, r)})
      decreases REMOVE_LIMIT - removed
    {
      RemovalEnds(fw, c, r, removed, k.faults);
      var deleted := DeleteCopy(k, c, r, fw, removed);
      if !deleted {
        return;
      }
      removed, ys := removed + 1, RemoveCopies(xs, r, removed + 1);
      if removed > 32 {
        break;
      }
      present := k.Check(c, r);
    }
    RemovalEnds(fw, c, r, removed, k.faults);
  }

  /** One more deletion, after `n`. */
  method DeleteCopy(k: Kernel, c: Chain, r: Rule, ghost fw: Firewall, ghost n: nat) returns (deleted: bool)
    requires k.fw == WithChain(fw, c, RemoveCopies(ChainOf(fw, c), r, n)) && r in RemoveCopies(ChainOf(fw, c), r, n)
    modifies k`fw, k`chains
    ensures deleted == (IptDelete(c, r) !in k.faults)
    ensures k.fw == if deleted then WithChain(fw, c, RemoveCopies(ChainOf(fw, c), r, n + 1)) else old(k.fw)
    ensures |RemoveCopies(ChainOf(fw, c), r, n + 1)| == |RemoveCopies(ChainOf(fw, c), r, n)| - 1
    ensures k.chains == old(k.chains) + [k.fw] && RulesStay(fw, k.fw, {Entry(c, r)})
  {
    RemoveOneMore(ChainOf(fw, c), r, n);
    RemoveFirstLength(RemoveCopies(ChainOf(fw, c), r, n), r);
    RemovalLeavesOthers(fw, c, r, n);
    RemovalLeavesOthers(fw, c, r, n + 1);
    deleted := k.Delete(c, r);
  }

  /** When the loop may stop after `n` deletions. */
  lemma RemovalEnds(fw: Firewall, c: Chain, r: Rule, n: nat, f: set<Cmd>)
    requires n <= REMOVE_LIMIT && (n > 0 ==> CanDelete(Entry(c, r), f))
    ensures n == REMOVE_LIMIT || r !in RemoveCopies(ChainOf(fw, c), r, n) || !CanDelete(Entry(c, r), f) ==>
              WithChain(fw, c, RemoveCopies(ChainOf(fw, c), r, n)) == RuleRemoved(fw, c, r, f)
  {
    if r !in RemoveCopies(ChainOf(fw, c), r, n) {
      NoneLeft(ChainOf(fw, c), r, n, REMOVE_LIMIT);
    }
  }

  lemma {:induction false} RemoveFirstLength<T>(xs: seq<T>, x: T)
    ensures x in xs ==> |RemoveFirst(xs, x)| == |xs| - 1
  {
    if xs != [] && xs[0] != x {
      RemoveFirstLength(xs[1..], x);
    }
  }

  lemma NoneLeft<T>(xs: seq<T>, x: T, n: nat, m: nat)
    requires n <= m && x !in RemoveCopies(xs, x, n)
    ensures RemoveCopies(xs, x, n) == RemoveCopies(xs, x, m)
  {
    RemoveCopiesMeaning(xs, x, n);
    RemoveCopiesMeaning(xs, x, m);
    CopiesOfMembers(RemoveCopies(xs, x, n), x);
  }

  // ------------------------------------------------------------------- NETMAP

  /** What a LAN mapping lives in. */
  datatype Natting = Natting(fw: Firewall, local: set<Prefix>)

  function NetmapApplied(s: Natting, dev: Dev, m: Mapping, f: set<Cmd>): (Natting, bool) {
    if IptVersion in f then (s, true)
    else
      var (fw1, ok1) := RuleEnsured(s.fw, Prerouting, InRule(dev, m), f);
      if !ok1 then (s.(fw := fw1), false)
      else
        var (fw2, ok2) := RuleEnsured(fw1, Postrouting, OutRule(dev, m), f);
        if !ok2 then (s.(fw := fw2), false)
        else
          var (fw3, ok3) := RuleEnsured(fw2, Postrouting, LanMasquerade(dev, m.physical), f);
          (Natting(fw3, LocalClaimed(s.local, m.shadow, f)), ok3)
  }

  function LocalClaimed(local: set<Prefix>, p: Prefix, f: set<Cmd>): set<Prefix> {
    if LocalAdd(p) in f then local else local + {p}
  }

  function NetmapRemoved(s: Natting, dev: Dev, m: Mapping, f: set<Cmd>): Natting {
    var fw1 := RuleRemoved(s.fw, Prerouting, InRule(dev, m), f);
    var fw2 := RuleRemoved(fw1, Postrouting, OutRule(dev, m), f);
    var fw3 := RuleRemoved(fw2, Postrouting, LanMasquerade(dev, m.physical), f);
    Natting(fw3, if LocalDel(m.shadow) in f then s.local else s.local - {m.shadow})
  }

  /** The rules of a mapping. */
  function MappingEntries(dev: Dev, m: Mapping): set<Entry> {
    {Entry(Prerouting, InRule(dev, m)), Entry(Postrouting, OutRule(dev, m)),
     Entry(Postrouting, LanMasquerade(dev, m.physical))}
  }

  /** All three rules and the local route. */
  predicate Complete(s: Natting, dev: Dev, m: Mapping) {
    (forall e :: e in MappingEntries(dev, m) ==> Present(s.fw, e)) && m.shadow in s.local
  }

  lemma CompleteMeaning(s: Natting, dev: Dev, m: Mapping)
    ensures Complete(s, dev, m) <==>
              && InRule(dev, m) in s.fw.pre && OutRule(dev, m) in s.fw.post
                 && LanMasquerade(dev, m.physical) in s.fw.post
              && m.shadow in s.local
  {
    assert Entry(Prerouting, InRule(dev, m)) in MappingEntries(dev, m);
    assert Entry(Postrouting, OutRule(dev, m)) in MappingEntries(dev, m);
    assert Entry(Postrouting, LanMasquerade(dev, m.physical)) in MappingEntries(dev, m);
  }

  /** Of the ranges claimed locally only those in `gone` are missing after some command since `before`. */
  ghost predicate LocalHeld(before: seq<Net>, states: seq<Net>, was: set<Prefix>, now: set<Prefix>, gone: set<Prefix>) {
    && before <= states && was - gone <= now
    && forall i :: |before| <= i < |states| ==> was - gone <= states[i].local
  }

  lemma LocalOnwards(s0: seq<Net>, s1: seq<Net>, s2: seq<Net>, was: set<Prefix>, mid: set<Prefix>, now: set<Prefix>,
                     gone: set<Prefix>, more: set<Prefix>)
    requires LocalHeld(s0, s1, was, mid, gone) && LocalHeld(s1, s2, mid, now, more) && more <= gone
    ensures LocalHeld(s0, s2, was, now, gone)
  {
    forall i | |s0| <= i < |s2| ensures was - gone <= s2[i].local {
      if i < |s1| {
        assert s2[i] == s1[i];
      }
    }
  }

  /** The states after `before` differ from the one now in the local table only. */
  ghost predicate LocalOnly(before: seq<Net>, states: seq<Net>, was: Net) {
    && before <= states
    && forall i :: |before| <= i < |states| ==> states[i] == was.(local := states[i].local)
  }

  /** `false` stands for the exception of a rule that could not be added. */
  method ApplyNetmap(k: Kernel, dev: Dev, m: Mapping) returns (ok: bool)
    modifies k`fw, k`chains, k`local, k`states
    ensures (Natting(k.fw, k.local), ok) == NetmapApplied(Natting(old(k.fw), old(k.local)), dev, m, k.faults)
    ensures LocalOnly(old(k.states), k.states, k.Now())
    ensures LocalHeld(old(k.states), k.states, old(k.local), k.local, {})
    ensures ChainsHeld(old(k.chains), k.chains, old(k.fw), k.fw, {})
  {
    var tool := k.Show(IptVersion);
    if !tool {
      return true;
    }
    var added: bool;
    ok, added := EnsureRule(k, Prerouting, InRule(dev, m));
    if !ok {
      return;
    }
    ok, added := EnsureRule(k, Postrouting, OutRule(dev, m));
    if !ok {
      return;
    }
    ClaimLocal(k, m.shadow);
    ok, added := EnsureRule(k, Postrouting, LanMasquerade(dev, m.physical));
  }

  /** The range is claimed unless it is seen to be; a failure is only warned about. */
  method ClaimLocal(k: Kernel, p: Prefix)
    modifies k`local, k`states
    ensures k.local == LocalClaimed(old(k.local), p, k.faults)
    ensures LocalOnly(old(k.states), k.states, k.Now())
    ensures LocalHeld(old(k.states), k.states, old(k.local), k.local, {})
  {
    var shown := k.Show(LocalShow(p));
    if !shown || p !in k.local {
      var _ := k.LocalAdd(p);
    }
  }

  method RemoveNetmap(k: Kernel, dev: Dev, m: Mapping)
    modifies k`fw, k`chains, k`local, k`states
    ensures Natting(k.fw, k.local) == NetmapRemoved(Natting(old(k.fw), old(k.local)), dev, m, k.faults)
    ensures LocalOnly(old(k.states), k.states, k.Now())
    ensures LocalHeld(old(k.states), k.states, old(k.local), k.local, {m.shadow})
    ensures ChainsHeld(old(k.chains), k.chains, old(k.fw), k.fw, MappingEntries(dev, m))
  {
    var _ := RemoveRule(k, Prerouting, InRule(dev, m));
    var _ := RemoveRule(k, Postrouting, OutRule(dev, m));
    var _ := RemoveRule(k, Postrouting, LanMasquerade(dev, m.physical));
    k.LocalDel(m.shadow);
  }

  // ------------------------------- which rule a LAN packet meets, over all runs

  predicate IsOutRule(r: Rule, dev: Dev) {
    r.target.Netmap? && r == OutRule(dev, Mapping(r.target.to, r.src))
  }

  predicate IsNetmapOf(r: Rule, dev: Dev, lan: Prefix) { IsOutRule(r, dev) && r.src == lan }

  /** Before the first MASQUERADE of this LAN, if there is one, comes a NETMAP of it. */
  predicate NetmapFirst(post: seq<Rule>, dev: Dev, lan: Prefix) {
    post == [] ||
    (post[0] != LanMasquerade(dev, lan) && (IsNetmapOf(post[0], dev, lan) || NetmapFirst(post[1..], dev, lan)))
  }

  /** Every LAN MASQUERADE has a NETMAP of the same LAN before it. */
  ghost predicate Guarded(post: seq<Rule>, dev: Dev) {
    forall lan :: NetmapFirst(post, dev, lan)
  }

  /** The chain still guards `m`'s LAN once the first `n` copies of `m`'s NETMAP and the first `k` of the LAN's
      MASQUERADE are out: before the MASQUERADE that is first then comes another NETMAP of the LAN, or one
      copy more of `m`'s. */
  predicate LeavesGuard(post: seq<Rule>, dev: Dev, m: Mapping, n: nat, k: nat) {
    if post == [] then true
    else if post[0] == LanMasquerade(dev, m.physical) then k > 0 && LeavesGuard(post[1..], dev, m, n, k - 1)
    else if post[0] == OutRule(dev, m) then n == 0 || LeavesGuard(post[1..], dev, m, n - 1, k)
    else IsNetmapOf(post[0], dev, m.physical) || LeavesGuard(post[1..], dev, m, n, k)
  }

  datatype NetmapCall = Apply(m: Mapping, faults: set<Cmd>) | Remove(m: Mapping, faults: set<Cmd>)

  /** The state after complete calls of `applyNetmap` and `removeNetmap`, whichever commands fail. */
  function RunOf(s: Natting, dev: Dev, calls: seq<NetmapCall>): Natting
    decreases calls
  {
    if calls == [] then s
    else
      RunOf(CallOf(s, dev, calls[0]), dev, calls[1..])
  }

  lemma {:induction false} NetmapFirstAppend(post: seq<Rule>, dev: Dev, lan: Prefix, r: Rule)
    requires NetmapFirst(post, dev, lan)
    requires r == LanMasquerade(dev, lan) ==> exists s :: OutRule(dev, Mapping(s, lan)) in post
    ensures NetmapFirst(post + [r], dev, lan)
  {
    if post == [] {
      assert post + [r] == [r];
    } else if !IsNetmapOf(post[0], dev, lan) {
      assert (post + [r])[1..] == post[1..] + [r];
      assert post == [post[0]] + post[1..];
      NetmapFirstAppend(post[1..], dev, lan, r);
    }
  }

  /** Taking out copies of anything but a LAN's NETMAP does not expose that LAN. */
  lemma {:induction false} NetmapFirstWithout(post: seq<Rule>, dev: Dev, lan: Prefix, x: Rule, n: nat)
    requires NetmapFirst(post, dev, lan) && !IsNetmapOf(x, dev, lan)
    ensures NetmapFirst(RemoveCopies(post, x, n), dev, lan)
    decreases post
  {
    if post != [] && n > 0 && !IsNetmapOf(post[0], dev, lan) {
      NetmapFirstWithout(post[1..], dev, lan, x, if post[0] == x then n - 1 else n);
      var rest := RemoveCopies(post[1..], x, n);
      assert ([post[0]] + rest)[1..] == rest;
    }
  }

  /** What `LeavesGuard` says of the chain as it is decides for the chain with the copies taken out. */
  lemma {:induction false} LeavesGuardMeaning(post: seq<Rule>, dev: Dev, m: Mapping, n: nat, k: nat)
    ensures var rest := RemoveCopies(RemoveCopies(post, OutRule(dev, m), n), LanMasquerade(dev, m.physical), k);
            NetmapFirst(rest, dev, m.physical) <==> LeavesGuard(post, dev, m, n, k)
    decreases post
  {
    var out, masq := OutRule(dev, m), LanMasquerade(dev, m.physical);
    if post != [] {
      var r := post[0];
      var n', k' := if r == out && n > 0 then n - 1 else n, if r == masq && k > 0 then k - 1 else k;
      LeavesGuardMeaning(post[1..], dev, m, n', k');
      RemoveFromCons(r, post[1..], out, n);
      RemoveFromCons(r, RemoveCopies(post[1..], out, n'), masq, k);
      assert post == [r] + post[1..];
      var rest := RemoveCopies(RemoveCopies(post[1..], out, n'), masq, k');
      assert ([r] + rest)[1..] == rest;
    }
  }

  lemma RemoveFromCons(r: Rule, rest: seq<Rule>, x: Rule, n: nat)
    ensures RemoveCopies([r] + rest, x, n) ==
              if r == x && n > 0 then RemoveCopies(rest, x, n - 1) else [r] + RemoveCopies(rest, x, n)
  {
    assert ([r] + rest)[1..] == rest;
    assert n == 0 ==> RemoveCopies(rest, x, n) == rest;
  }

  lemma {:induction false} NothingToGuard(post: seq<Rule>, dev: Dev, lan: Prefix)
    requires LanMasquerade(dev, lan) !in post
    ensures NetmapFirst(post, dev, lan)
  {
    if post != [] {
      assert post[0] in post;
      NothingToGuard(post[1..], dev, lan);
    }
  }

  lemma {:induction false} CopiesAfterRemoval<T>(xs: seq<T>, x: T, n: nat, y: T)
    ensures Copies(RemoveCopies(xs, x, n), y) <= Copies(xs, y)
    decreases xs
  {
    if xs != [] && n > 0 {
      CopiesAfterRemoval(xs[1..], x, if xs[0] == x then n - 1 else n, y);
      var rest := RemoveCopies(xs[1..], x, n);
      assert ([xs[0]] + rest)[1..] == rest;
    }
  }

  /** Adding rules keeps the guard, whichever command fails. */
  lemma ApplyKeepsGuard(s: Natting, dev: Dev, m: Mapping, f: set<Cmd>)
    requires Guarded(s.fw.post, dev)
    ensures Guarded(NetmapApplied(s, dev, m, f).0.fw.post, dev)
  {
    if IptVersion !in f {
      var fw1 := RuleEnsured(s.fw, Prerouting, InRule(dev, m), f).0;
      var (fw2, ok2) := RuleEnsured(fw1, Postrouting, OutRule(dev, m), f);
      EnsuredKeepsGuard(fw1, dev, OutRule(dev, m), f);
      if ok2 {
        assert OutRule(dev, Mapping(m.shadow, m.physical)) in fw2.post;
        EnsuredKeepsGuard(fw2, dev, LanMasquerade(dev, m.physical), f);
      }
    }
  }

  lemma EnsuredKeepsGuard(fw: Firewall, dev: Dev, r: Rule, f: set<Cmd>)
    requires Guarded(fw.post, dev)
    requires r == LanMasquerade(dev, r.src) ==> exists s :: OutRule(dev, Mapping(s, r.src)) in fw.post
    ensures Guarded(RuleEnsured(fw, Postrouting, r, f).0.post, dev)
  {
    var after := RuleEnsured(fw, Postrouting, r, f).0;
    if after.post != fw.post {
      forall lan ensures NetmapFirst(after.post, dev, lan) {
        NetmapFirstAppend(fw.post, dev, lan, r);
      }
    }
  }

  /** How many copies `removeRule` takes out at most. */
  function Reach(r: Rule, f: set<Cmd>): nat {
    if CanDelete(Entry(Postrouting, r), f) then REMOVE_LIMIT else 0
  }

  /** When a removal keeps the guard, to be read off the chain and the failing commands beforehand. */
  predicate RemovalIsSafe(post: seq<Rule>, dev: Dev, m: Mapping, f: set<Cmd>) {
    LeavesGuard(post, dev, m, Reach(OutRule(dev, m), f), Reach(LanMasquerade(dev, m.physical), f))
  }

  /** Removing a mapping keeps the guard exactly when, of its NETMAPs and MASQUERADEs, what cannot be seen or
      deleted and what is beyond 33 copies leaves a NETMAP of the LAN before any MASQUERADE. */
  lemma RemovalKeepsGuardExactly(s: Natting, dev: Dev, m: Mapping, f: set<Cmd>)
    requires Guarded(s.fw.post, dev)
    ensures Guarded(NetmapRemoved(s, dev, m, f).fw.post, dev) <==> RemovalIsSafe(s.fw.post, dev, m, f)
  {
    var out, masq := OutRule(dev, m), LanMasquerade(dev, m.physical);
    var n, k := Reach(out, f), Reach(masq, f);
    var mid := RemoveCopies(s.fw.post, out, n);
    var after := RemoveCopies(mid, masq, k);
    assert NetmapRemoved(s, dev, m, f).fw.post == after by {
      RemoveNone(s.fw.post, out);
      RemoveNone(mid, masq);
    }
    forall other | other != m.physical ensures NetmapFirst(after, dev, other) {
      NetmapFirstWithout(s.fw.post, dev, other, out, n);
      NetmapFirstWithout(mid, dev, other, masq, k);
    }
    LeavesGuardMeaning(s.fw.post, dev, m, n, k);
  }

  lemma RemoveNone(xs: seq<Rule>, x: Rule)
    ensures RemoveCopies(xs, x, 0) == xs
  {
  }

  /** So a removal is safe when the MASQUERADE, in at most 33 copies, can be seen and deleted, and when the
      NETMAP cannot. */
  lemma {:induction false} SafeRemovals(post: seq<Rule>, dev: Dev, m: Mapping, n: nat, k: nat)
    ensures Copies(post, LanMasquerade(dev, m.physical)) <= k ==> LeavesGuard(post, dev, m, n, k)
    ensures NetmapFirst(post, dev, m.physical) ==> LeavesGuard(post, dev, m, 0, k)
    decreases post
  {
    if post != [] {
      var masq := LanMasquerade(dev, m.physical);
      SafeRemovals(post[1..], dev, m, if post[0] == OutRule(dev, m) && n > 0 then n - 1 else n,
                   if post[0] == masq && k > 0 then k - 1 else k);
      CopiesOfMembers(post, masq);
    }
  }

  /** The guard can be lost: a mapping is applied, and removed while its MASQUERADE cannot be seen or cannot
      be deleted. From then on the LAN's traffic into the mesh is masqueraded. */
  lemma MasqueradeLeftBehind(dev: Dev, m: Mapping, p: Packet, fault: Cmd)
    requires p.outDev == dev && Contains(m.physical, p.src)
    requires var masq := LanMasquerade(dev, m.physical);
             fault in {IptCheck(Postrouting, masq), IptDelete(Postrouting, masq)}
    ensures var s := NetmapApplied(Natting(Firewall([], [], []), {}), dev, m, {}).0;
            var masq := LanMasquerade(dev, m.physical);
            var after := NetmapRemoved(s, dev, m, {fault});
      && FirstMatch(s.fw.post, p, {}) == Some(OutRule(dev, m))
      && FirstMatch(after.fw.post, p, {}) == Some(masq)
  {
    var out, masq := OutRule(dev, m), LanMasquerade(dev, m.physical);
    var s := NetmapApplied(Natting(Firewall([], [], []), {}), dev, m, {}).0;
    assert s.fw.post == [out, masq];
    AnyContains(p.dst);
    OnlyMasqueradeLeft(s, dev, m, fault);
  }

  lemma OnlyMasqueradeLeft(s: Natting, dev: Dev, m: Mapping, fault: Cmd)
    requires s.fw.post == [OutRule(dev, m), LanMasquerade(dev, m.physical)]
    requires var masq := LanMasquerade(dev, m.physical);
             fault in {IptCheck(Postrouting, masq), IptDelete(Postrouting, masq)}
    ensures NetmapRemoved(s, dev, m, {fault}).fw.post == [LanMasquerade(dev, m.physical)]
  {
    var out, masq := OutRule(dev, m), LanMasquerade(dev, m.physical);
    assert !CanDelete(Entry(Postrouting, masq), {fault}) && CanDelete(Entry(Postrouting, out), {fault});
    RemoveFromCons(out, [masq], out, REMOVE_LIMIT);
    RemoveFromCons(masq, [], out, REMOVE_LIMIT - 1);
    assert [out, masq] == [out] + [masq] && [masq] == [masq] + [];
  }

  function CallOf(s: Natting, dev: Dev, c: NetmapCall): Natting {
    if c.Apply? then NetmapApplied(s, dev, c.m, c.faults).0 else NetmapRemoved(s, dev, c.m, c.faults)
  }

  /** Every removal of the run is safe where it happens. */
  predicate Careful(s: Natting, dev: Dev, calls: seq<NetmapCall>)
    decreases calls
  {
    calls == [] ||
    ((calls[0].Remove? ==> RemovalIsSafe(s.fw.post, dev, calls[0].m, calls[0].faults)) &&
     Careful(CallOf(s, dev, calls[0]), dev, calls[1..]))
  }

  /** The guard is there after each call of the run. */
  ghost predicate AlwaysGuarded(s: Natting, dev: Dev, calls: seq<NetmapCall>)
    decreases calls
  {
    Guarded(s.fw.post, dev) && (calls != [] ==> AlwaysGuarded(CallOf(s, dev, calls[0]), dev, calls[1..]))
  }

  lemma {:induction false} RunKeepsGuardExactly(s: Natting, dev: Dev, calls: seq<NetmapCall>)
    requires Guarded(s.fw.post, dev)
    ensures AlwaysGuarded(s, dev, calls) <==> Careful(s, dev, calls)
    ensures AlwaysGuarded(s, dev, calls) ==> Guarded(RunOf(s, dev, calls).fw.post, dev)
    decreases calls
  {
    if calls != [] {
      var c := calls[0];
      if c.Apply? {
        ApplyKeepsGuard(s, dev, c.m, c.faults);
      } else {
        RemovalKeepsGuardExactly(s, dev, c.m, c.faults);
      }
      if Guarded(CallOf(s, dev, c).fw.post, dev) {
        RunKeepsGuardExactly(CallOf(s, dev, c), dev, calls[1..]);
      }
    }
  }

  lemma {:induction false} GuardedNeverMasquerades(post: seq<Rule>, dev: Dev, p: Packet, passing: set<string>,
                                                   lan: Prefix)
    requires NetmapFirst(post, dev, lan) && p.outDev == dev && Contains(lan, p.src)
    ensures FirstMatch(post, p, passing) != Some(LanMasquerade(dev, lan))
  {
    if post != [] {
      AnyContains(p.dst);
      if !IsNetmapOf(post[0], dev, lan) {
        GuardedNeverMasquerades(post[1..], dev, p, passing, lan);
      }
    }
  }

  /** After any run of calls whose removals are safe, no packet that leaves the mesh interface is
      masqueraded by the rule added "to let LAN hosts reach the mesh". A packet from a LAN that has that rule
      is decided before it, and by a NETMAP unless a rule that is not the gateway's matches it. */
  lemma LanTrafficIsNeverMasqueraded(s: Natting, dev: Dev, calls: seq<NetmapCall>, p: Packet, passing: set<string>)
    requires Guarded(s.fw.post, dev) && Careful(s, dev, calls)
    requires p.outDev == dev
    ensures var post := RunOf(s, dev, calls).fw.post;
            var first := FirstMatch(post, p, passing);
      && (first.Some? ==> Matches(first.value, p) && first.value != LanMasquerade(dev, first.value.src))
      && (forall lan :: LanMasquerade(dev, lan) in post && Contains(lan, p.src) ==>
            && first.Some?
            && ((forall r :: r in post && Matches(r, p) ==> IsOutRule(r, dev) || r == LanMasquerade(dev, r.src))
                ==> IsOutRule(first.value, dev)))
  {
    var post := RunOf(s, dev, calls).fw.post;
    var first := FirstMatch(post, p, passing);
    RunKeepsGuardExactly(s, dev, calls);
    if first.Some? {
      FirstMatchMatches(post, p, passing);
      GuardedNeverMasquerades(post, dev, p, passing, first.value.src);
    }
    forall lan | LanMasquerade(dev, lan) in post && Contains(lan, p.src)
      ensures first.Some?
    {
      AnyContains(p.dst);
      SomeMatch(post, p, passing, LanMasquerade(dev, lan));
    }
  }

  lemma {:induction false} FirstMatchMatches(chain: seq<Rule>, p: Packet, passing: set<string>)
    requires FirstMatch(chain, p, passing).Some?
    ensures var r := FirstMatch(chain, p, passing).value; r in chain && Matches(r, p)
  {
    if !Matches(chain[0], p) || (chain[0].target.Other? && chain[0].target.name in passing) {
      FirstMatchMatches(chain[1..], p, passing);
    }
  }

  lemma {:induction false} SomeMatch(chain: seq<Rule>, p: Packet, passing: set<string>, r: Rule)
    requires r in chain && Matches(r, p) && !r.target.Other?
    ensures FirstMatch(chain, p, passing).Some?
  {
    if chain[0] != r && FirstMatch(chain, p, passing) != Some(chain[0]) {
      SomeMatch(chain[1..], p, passing, r);
    }
  }

  lemma AnyContains(a: Addr)
    ensures Contains(ANY, a)
  {
    Sizes();
  }

  // --------------------------------------------------------------- forwarding

  /** The rules `applyForwarding` asks for, in its order. */
  function ForwardingEntries(wan: Dev, tunnels: seq<Dev>): seq<Entry> {
    [Entry(Postrouting, UplinkMasquerade(wan))] + TunnelEntries(wan, tunnels, tunnels)
  }

  function TunnelEntries(wan: Dev, rest: seq<Dev>, tunnels: seq<Dev>): seq<Entry> {
    if rest == [] then []
    else
      TunnelBlock(wan, rest[0], tunnels) + TunnelEntries(wan, rest[1..], tunnels)
  }

  function TunnelBlock(wan: Dev, tun: Dev, tunnels: seq<Dev>): seq<Entry> {
    [Entry(Forward, ForwardRule(tun, wan, false)), Entry(Forward, ForwardRule(wan, tun, true))]
      + CrossEntries(tun, tunnels)
  }

  function CrossEntries(tun: Dev, others: seq<Dev>): seq<Entry> {
    if others == [] then []
    else if others[0] == tun then CrossEntries(tun, others[1..])
    else [Entry(Forward, ForwardRule(tun, others[0], false))] + CrossEntries(tun, others[1..])
  }

  /** Ensures rule after rule; stops at one that cannot be added. */
  function AllEnsured(fw: Firewall, entries: seq<Entry>, f: set<Cmd>): (Firewall, bool)
    decreases entries
  {
    if entries == [] then (fw, true)
    else
      var (next, ok) := RuleEnsured(fw, entries[0].chain, entries[0].rule, f);
      if !ok then (next, false) else AllEnsured(next, entries[1..], f)
  }

  function ForwardingApplied(fw: Firewall, wan: Option<Dev>, tunnels: seq<Dev>, f: set<Cmd>): (Firewall, bool) {
    if wan == None then (fw, true) else AllEnsured(fw, ForwardingEntries(wan.value, tunnels), f)
  }

  lemma {:induction false} AllEnsuredConcat(fw: Firewall, a: seq<Entry>, b: seq<Entry>, f: set<Cmd>)
    ensures AllEnsured(fw, a + b, f)
         == if AllEnsured(fw, a, f).1 then AllEnsured(AllEnsured(fw, a, f).0, b, f) else AllEnsured(fw, a, f)
    decreases a
  {
    if a == [] {
      assert a + b == b;
    } else {
      assert (a + b)[1..] == a[1..] + b;
      var (next, ok) := RuleEnsured(fw, a[0].chain, a[0].rule, f);
      if ok {
        AllEnsuredConcat(next, a[1..], b, f);
      }
    }
  }

  method ApplyForwarding(k: Kernel, wan: Option<Dev>, tunnels: seq<Dev>) returns (ok: bool)
    modifies k`fw, k`chains
    ensures (k.fw, ok) == ForwardingApplied(old(k.fw), wan, tunnels, k.faults)
    ensures ChainsHeld(old(k.chains), k.chains, old(k.fw), k.fw, {})
  {
    if wan == None {
      return true;
    }
    var entries := ForwardingEntries(wan.value, tunnels);
    var added: bool;
    ok, added := EnsureRule(k, Postrouting, UplinkMasquerade(wan.value));
    assert entries[1..] == TunnelEntries(wan.value, tunnels, tunnels);
    if !ok {
      return;
    }
    for i := 0 to |tunnels|
      invariant AllEnsured(k.fw, TunnelEntries(wan.value, tunnels[i..], tunnels), k.faults)
                == AllEnsured(old(k.fw), entries, k.faults)
      invariant ChainsHeld(old(k.chains), k.chains, old(k.fw), k.fw, {})
    {
      ghost var fw0 := k.fw;
      ok := ForwardTunnel(k, wan.value, tunnels[i], tunnels);
      assert tunnels[i..][1..] == tunnels[i + 1..];
      AllEnsuredConcat(fw0, TunnelBlock(wan.value, tunnels[i], tunnels),
                       TunnelEntries(wan.value, tunnels[i + 1..], tunnels), k.faults);
      if !ok {
        return;
      }
    }
    ok := true;
  }

  /** One round of the loop over the tunnels. */
  method ForwardTunnel(k: Kernel, wan: Dev, tun: Dev, tunnels: seq<Dev>) returns (ok: bool)
    modifies k`fw, k`chains
    ensures (k.fw, ok) == AllEnsured(old(k.fw), TunnelBlock(wan, tun, tunnels), k.faults)
    ensures ChainsHeld(old(k.chains), k.chains, old(k.fw), k.fw, {})
  {
    ghost var block := TunnelBlock(wan, tun, tunnels);
    var added: bool;
    ok, added := EnsureRule(k, Forward, ForwardRule(tun, wan, false));
    if !ok {
      return;
    }
    ok, added := EnsureRule(k, Forward, ForwardRule(wan, tun, true));
    assert block[1..][1..] == CrossEntries(tun, tunnels);
    if !ok {
      return;
    }
    for i := 0 to |tunnels|
      invariant AllEnsured(k.fw, CrossEntries(tun, tunnels[i..]), k.faults) == AllEnsured(old(k.fw), block, k.faults)
      invariant ChainsHeld(old(k.chains), k.chains, old(k.fw), k.fw, {})
    {
      assert tunnels[i..][1..] == tunnels[i + 1..];
      if tunnels[i] != tun {
        assert CrossEntries(tun, tunnels[i..])[1..] == CrossEntries(tun, tunnels[i + 1..]);
        ok, added := EnsureRule(k, Forward, ForwardRule(tun, tunnels[i], false));
        if !ok {
          return;
        }
      }
    }
    ok := true;
  }

  /** The entries of one pass that concern traffic from the uplink into a tunnel are for established
      flows only, provided the uplink is no tunnel itself. */
  lemma {:induction false} TunnelEntriesFromUplink(wan: Dev, rest: seq<Dev>, tunnels: seq<Dev>, e: Entry)
    requires e in TunnelEntries(wan, rest, tunnels)
    ensures e.chain == Forward && e.rule.target == Accept
    ensures wan !in rest && e.rule.inDev == Some(wan) ==> e.rule.established
  {
    var block := TunnelBlock(wan, rest[0], tunnels);
    if e in block {
      if e in CrossEntries(rest[0], tunnels) {
        CrossEntriesFromTunnel(rest[0], tunnels, e);
      }
    } else {
      TunnelEntriesFromUplink(wan, rest[1..], tunnels, e);
    }
  }

  lemma {:induction false} CrossEntriesFromTunnel(tun: Dev, others: seq<Dev>, e: Entry)
    requires e in CrossEntries(tun, others)
    ensures e.chain == Forward && e.rule.inDev == Some(tun) && e.rule.target == Accept
  {
    if others[0] != tun && e != CrossEntries(tun, others)[0] {
      CrossEntriesFromTunnel(tun, others[1..], e);
    } else if others[0] == tun {
      CrossEntriesFromTunnel(tun, others[1..], e);
    }
  }

  /** Rules that do not match a packet can be ensured without changing its fate. */
  lemma {:induction false} IrrelevantEntries(fw: Firewall, entries: seq<Entry>, f: set<Cmd>, p: Packet,
                                             passing: set<string>)
    requires forall e :: e in entries && e.chain == Forward ==> !Matches(e.rule, p)
    ensures FirstMatch(AllEnsured(fw, entries, f).0.forward, p, passing) == FirstMatch(fw.forward, p, passing)
    decreases entries
  {
    if entries != [] {
      var (next, ok) := RuleEnsured(fw, entries[0].chain, entries[0].rule, f);
      if next != fw {
        FirstMatchOfConcat(fw.forward, [entries[0].rule], p, passing);
      }
      if ok {
        IrrelevantEntries(next, entries[1..], f, p, passing);
      }
    }
  }

  lemma {:induction false} TunnelEntriesName(wan: Dev, rest: seq<Dev>, tunnels: seq<Dev>, e: Entry)
    requires e in TunnelEntries(wan, rest, tunnels)
    ensures e.rule.inDev.Some?
  {
    var block := TunnelBlock(wan, rest[0], tunnels);
    if e in block {
      if e in CrossEntries(rest[0], tunnels) {
        CrossEntriesFromTunnel(rest[0], tunnels, e);
      }
    } else {
      TunnelEntriesName(wan, rest[1..], tunnels, e);
    }
  }

  // -------------------------------------------------------------- idempotence

  /** Ensuring never drops a rule; without failures every listed rule is there afterwards. */
  lemma {:induction false} AllEnsuredMeaning(fw: Firewall, entries: seq<Entry>, f: set<Cmd>, e: Entry)
    ensures Present(fw, e) ==> Present(AllEnsured(fw, entries, f).0, e)
    ensures f == {} ==> AllEnsured(fw, entries, f).1
    ensures f == {} && e in entries ==> Present(AllEnsured(fw, entries, f).0, e)
    decreases entries
  {
    if entries != [] {
      var (next, ok) := RuleEnsured(fw, entries[0].chain, entries[0].rule, f);
      if ok {
        AllEnsuredMeaning(next, entries[1..], f, e);
      }
    }
  }

  /** However often and with whichever failures rules are ensured, no rule goes, and one gets a further copy
      exactly each time its check fails and its append works. */
  lemma {:induction false} PassesStackExactly(fw: Firewall, entries: seq<Entry>, f: set<Cmd>, e: Entry)
    ensures var (after, ok) := AllEnsured(fw, entries, f);
            var n, m := Copies(ChainOf(fw, e.chain), e.rule), Copies(ChainOf(after, e.chain), e.rule);
      && n <= m <= CopiesAfter(n, Copies(entries, e), e, f)
      && (ok ==> m == CopiesAfter(n, Copies(entries, e), e, f))
    decreases entries
  {
    if entries != [] {
      EnsuringStacksExactly(fw, entries[0].chain, entries[0].rule, f, e.chain, e.rule);
      var (next, ok) := RuleEnsured(fw, entries[0].chain, entries[0].rule, f);
      if ok {
        PassesStackExactly(next, entries[1..], f, e);
      }
    }
  }

  /** Ensuring this rule does not throw. */
  predicate CanEnsure(fw: Firewall, e: Entry, f: set<Cmd>) {
    || IptVersion in f
    || (Present(fw, e) && IptCheck(e.chain, e.rule) !in f)
    || IptAppend(e.chain, e.rule) !in f
  }

  lemma {:induction false} AllEnsuredExactly(fw: Firewall, entries: seq<Entry>, f: set<Cmd>, e: Entry)
    ensures AllEnsured(fw, entries, f).1 <==> forall x :: x in entries ==> CanEnsure(fw, x, f)
    ensures CanEnsure(AllEnsured(fw, entries, f).0, e, f) <==> CanEnsure(fw, e, f)
    decreases entries
  {
    if entries != [] {
      var (next, ok) := RuleEnsured(fw, entries[0].chain, entries[0].rule, f);
      assert forall x :: x in entries <==> x == entries[0] || x in entries[1..];
      if ok {
        AllEnsuredExactly(next, entries[1..], f, e);
        forall x ensures CanEnsure(next, x, f) <==> CanEnsure(fw, x, f) {
        }
      } else {
        assert !CanEnsure(fw, entries[0], f);
      }
    }
  }

  /** A mapping is applied without an exception exactly when each of its rules can be ensured. */
  lemma AppliedExactly(s: Natting, dev: Dev, m: Mapping, f: set<Cmd>, e: Entry)
    ensures NetmapApplied(s, dev, m, f).1 <==> forall x :: x in MappingEntries(dev, m) ==> CanEnsure(s.fw, x, f)
    ensures CanEnsure(NetmapApplied(s, dev, m, f).0.fw, e, f) <==> CanEnsure(s.fw, e, f)
  {
    var fw1 := RuleEnsured(s.fw, Prerouting, InRule(dev, m), f).0;
    var fw2 := RuleEnsured(fw1, Postrouting, OutRule(dev, m), f).0;
    forall x
      ensures CanEnsure(fw1, x, f) <==> CanEnsure(s.fw, x, f)
      ensures CanEnsure(fw2, x, f) <==> CanEnsure(fw1, x, f)
    {
    }
    assert Entry(Prerouting, InRule(dev, m)) in MappingEntries(dev, m);
    assert Entry(Postrouting, OutRule(dev, m)) in MappingEntries(dev, m);
    assert Entry(Postrouting, LanMasquerade(dev, m.physical)) in MappingEntries(dev, m);
  }

  /** Ensuring a rule that is there does nothing. */
  predicate Seen(e: Entry, f: set<Cmd>) { IptVersion in f || IptCheck(e.chain, e.rule) !in f }

  /** Ensuring a rule that is there appends no copy. */
  predicate NotStacked(e: Entry, f: set<Cmd>) { Seen(e, f) || IptAppend(e.chain, e.rule) in f }

  /** When every rule is there, ensuring them changes nothing and throws nothing exactly when none of the
      checks fails, and changes nothing if none of those that fail is followed by an append that works. */
  lemma {:induction false} PresentStayExactly(fw: Firewall, entries: seq<Entry>, f: set<Cmd>)
    requires forall e :: e in entries ==> Present(fw, e)
    ensures AllEnsured(fw, entries, f) == (fw, true) <==> forall e :: e in entries ==> Seen(e, f)
    ensures (forall e :: e in entries ==> NotStacked(e, f)) ==> AllEnsured(fw, entries, f).0 == fw
    decreases entries
  {
    if entries != [] {
      var e := entries[0];
      assert Present(fw, e) && forall x :: x in entries <==> x == e || x in entries[1..];
      if Seen(e, f) || IptAppend(e.chain, e.rule) in f {
        PresentStayExactly(fw, entries[1..], f);
      } else {
        PassesStackExactly(fw, entries, f, e);
        EnsuringStacksExactly(fw, e.chain, e.rule, f, e.chain, e.rule);
        PassesStackExactly(RuleEnsured(fw, e.chain, e.rule, f).0, entries[1..], f, e);
        CopiesOfMembers(ChainOf(fw, e.chain), e.rule);
        assert e in entries && !NotStacked(e, f);
      }
    }
  }

  /** A second pass of `applyForwarding` does nothing exactly when it sees what is there. */
  lemma ForwardingIsIdempotentExactly(fw: Firewall, wan: Option<Dev>, tunnels: seq<Dev>, f: set<Cmd>)
    ensures var once := ForwardingApplied(fw, wan, tunnels, {}).0;
            ForwardingApplied(once, wan, tunnels, f) == (once, true) <==>
              (wan.Some? ==> forall e :: e in ForwardingEntries(wan.value, tunnels) ==> Seen(e, f))
  {
    if wan.Some? {
      var entries := ForwardingEntries(wan.value, tunnels);
      forall e | e in entries ensures Present(AllEnsured(fw, entries, {}).0, e) {
        AllEnsuredMeaning(fw, entries, {}, e);
      }
      PresentStayExactly(AllEnsured(fw, entries, {}).0, entries, f);
    }
  }

  // ------------------------------------------------------ what forwarding opens

  /** New connections from the uplink meet the same rule after `applyForwarding` as before. */
  ghost predicate OpensNothing(wan: Dev, tunnels: seq<Dev>) {
    forall fw: Firewall, f: set<Cmd>, p: Packet, passing: set<string>
      {:trigger ForwardingApplied(fw, Some(wan), tunnels, f), FirstMatch(fw.forward, p, passing)} ::
      p.inDev == wan && !p.established ==>
        FirstMatch(ForwardingApplied(fw, Some(wan), tunnels, f).0.forward, p, passing)
          == FirstMatch(fw.forward, p, passing)
  }

  /** The internet gets no way to open a connection exactly when the uplink is not itself listed as a
      tunnel. */
  lemma ForwardingOpensNothing(wan: Dev, tunnels: seq<Dev>)
    ensures OpensNothing(wan, tunnels) <==> wan !in tunnels
  {
    if wan in tunnels {
      var fw, p := Firewall([], [], []), Packet(wan, wan, 0, 0, false, {});
      var e := Entry(Forward, ForwardRule(wan, wan, false));
      UplinkEntry(wan, tunnels, tunnels);
      AllEnsuredMeaning(fw, ForwardingEntries(wan, tunnels), {}, e);
      AnyContains(0);
      SomeMatch(ForwardingApplied(fw, Some(wan), tunnels, {}).0.forward, p, {}, e.rule);
      assert FirstMatch(fw.forward, p, {}) == None;
    } else {
      forall fw: Firewall, f: set<Cmd>, p: Packet, passing: set<string> | p.inDev == wan && !p.established
        ensures FirstMatch(ForwardingApplied(fw, Some(wan), tunnels, f).0.forward, p, passing)
                  == FirstMatch(fw.forward, p, passing)
      {
        forall e | e in ForwardingEntries(wan, tunnels) && e.chain == Forward ensures !Matches(e.rule, p) {
          TunnelEntriesFromUplink(wan, tunnels, tunnels, e);
          TunnelEntriesName(wan, tunnels, tunnels, e);
        }
        IrrelevantEntries(fw, ForwardingEntries(wan, tunnels), f, p, passing);
      }
    }
  }

  lemma {:induction false} UplinkEntry(wan: Dev, rest: seq<Dev>, tunnels: seq<Dev>)
    requires wan in rest
    ensures Entry(Forward, ForwardRule(wan, wan, false)) in TunnelEntries(wan, rest, tunnels)
  {
    if rest[0] == wan {
      assert TunnelBlock(wan, wan, tunnels)[0] == Entry(Forward, ForwardRule(wan, wan, false));
    } else {
      UplinkEntry(wan, rest[1..], tunnels);
    }
  }

  // ------------------------------------------------- what becomes of a packet

  /** The rule would decide the packet if nothing before it did. */
  predicate Decides(r: Rule, p: Packet, passing: set<string>) {
    Matches(r, p) && !(r.target.Other? && r.target.name in passing)
  }

  lemma {:induction false} FirstDecides(chain: seq<Rule>, p: Packet, passing: set<string>)
    ensures FirstMatch(chain, p, passing) == None <==> forall r :: r in chain ==> !Decides(r, p, passing)
    ensures FirstMatch(chain, p, passing).Some? ==>
              FirstMatch(chain, p, passing).value in chain && Decides(FirstMatch(chain, p, passing).value, p, passing)
  {
    if chain != [] {
      FirstDecides(chain[1..], p, passing);
      assert chain[0] in chain && forall r :: r in chain <==> r == chain[0] || r in chain[1..];
    }
  }

  /** Nothing in the chain decides the packet but rules with this target. */
  ghost predicate OnlyDecidedBy(chain: seq<Rule>, p: Packet, passing: set<string>, t: Target) {
    forall r :: r in chain && Decides(r, p, passing) ==> r.target == t
  }

  /** With the mapping complete, a packet from the mesh to an address of the shadow is decided, and unless another
      rule gets hold of it, sent on to the host of the LAN with the same number. */
  lemma MeshReachesLan(s: Natting, dev: Dev, m: Mapping, p: Packet, passing: set<string>)
    requires Complete(s, dev, m) && p.inDev == dev && Contains(m.shadow, p.dst)
    ensures var first := FirstMatch(s.fw.pre, p, passing);
      && first.Some?
      && (OnlyDecidedBy(s.fw.pre, p, passing, Netmap(m.physical)) ==> first.value.target == Netmap(m.physical))
  {
    CompleteMeaning(s, dev, m);
    AnyContains(p.src);
    assert Decides(InRule(dev, m), p, passing);
    FirstDecides(s.fw.pre, p, passing);
  }

  /** And a packet from the LAN into the mesh leaves under its shadow address, past the LAN's MASQUERADE. */
  lemma LanReachesMesh(s: Natting, dev: Dev, m: Mapping, p: Packet, passing: set<string>)
    requires Complete(s, dev, m) && Guarded(s.fw.post, dev) && p.outDev == dev && Contains(m.physical, p.src)
    ensures var first := FirstMatch(s.fw.post, p, passing);
      && first.Some?
      && ((forall r :: r in s.fw.post && Decides(r, p, passing) ==>
             r.target == Netmap(m.shadow) || r == Rule(None, Some(dev), m.physical, ANY, false, "", Masquerade)) ==>
            first.value.target == Netmap(m.shadow))
  {
    CompleteMeaning(s, dev, m);
    AnyContains(p.dst);
    assert Decides(OutRule(dev, m), p, passing);
    FirstDecides(s.fw.post, p, passing);
    GuardedNeverMasquerades(s.fw.post, dev, p, passing, m.physical);
  }

  /** A call without failures completes its mapping. */
  lemma AppliedIsComplete(s: Natting, dev: Dev, m: Mapping)
    ensures NetmapApplied(s, dev, m, {}).1 && Complete(NetmapApplied(s, dev, m, {}).0, dev, m)
  {
    CompleteMeaning(NetmapApplied(s, dev, m, {}).0, dev, m);
  }

  /** So on a chain that says nothing of it, the packet to a shadow address is rewritten after a call, and so is
      the packet from the LAN. */
  lemma AppliedRewrites(s: Natting, dev: Dev, m: Mapping, p: Packet, passing: set<string>)
    ensures var t := NetmapApplied(s, dev, m, {}).0;
      && (p.inDev == dev && Contains(m.shadow, p.dst) && FirstMatch(s.fw.pre, p, passing) == None ==>
            var first := FirstMatch(t.fw.pre, p, passing); first.Some? && first.value.target == Netmap(m.physical))
      && (p.outDev == dev && Contains(m.physical, p.src) && FirstMatch(s.fw.post, p, passing) == None ==>
            var first := FirstMatch(t.fw.post, p, passing); first.Some? && first.value.target == Netmap(m.shadow))
  {
    AnyContains(p.src);
    AnyContains(p.dst);
    FirstDecides(s.fw.pre, p, passing);
    FirstDecides(s.fw.post, p, passing);
    FirstMatchOfConcat(s.fw.pre, [InRule(dev, m)], p, passing);
    FirstMatchOfConcat(s.fw.post, [OutRule(dev, m)], p, passing);
    FirstMatchOfConcat(s.fw.post + [OutRule(dev, m)], [LanMasquerade(dev, m.physical)], p, passing);
    EnsuredTwice(s, dev, m);
    if p.outDev == dev && Contains(m.physical, p.src) && FirstMatch(s.fw.post, p, passing) == None {
      assert Decides(OutRule(dev, m), p, passing) && Decides(LanMasquerade(dev, m.physical), p, passing);
    }
  }

  lemma EnsuredTwice(s: Natting, dev: Dev, m: Mapping)
    ensures var t := NetmapApplied(s, dev, m, {}).0;
      && (InRule(dev, m) !in s.fw.pre ==> t.fw.pre == s.fw.pre + [InRule(dev, m)])
      && (OutRule(dev, m) !in s.fw.post && LanMasquerade(dev, m.physical) !in s.fw.post ==>
            t.fw.post == s.fw.post + [OutRule(dev, m)] + [LanMasquerade(dev, m.physical)])
  {
  }

  /** The traffic forwarding is there for: out of a tunnel to the uplink, answers back, and between tunnels. */
  predicate Permitted(p: Packet, wan: Dev, tunnels: seq<Dev>) {
    || (p.inDev in tunnels && p.outDev == wan)
    || (p.inDev == wan && p.outDev in tunnels && p.established)
    || (p.inDev in tunnels && p.outDev in tunnels && p.inDev != p.outDev)
  }

  lemma {:induction false} CrossEntriesExactly(tun: Dev, others: seq<Dev>, e: Entry)
    ensures e in CrossEntries(tun, others) <==>
              exists o :: o in others && o != tun && e == Entry(Forward, ForwardRule(tun, o, false))
  {
    if others != [] {
      CrossEntriesExactly(tun, others[1..], e);
      assert forall o :: o in others <==> o == others[0] || o in others[1..];
    }
  }

  lemma {:induction false} TunnelEntriesExactly(wan: Dev, rest: seq<Dev>, tunnels: seq<Dev>, e: Entry)
    ensures e in TunnelEntries(wan, rest, tunnels) <==>
              exists t :: t in rest && e in TunnelBlock(wan, t, tunnels)
  {
    if rest != [] {
      TunnelEntriesExactly(wan, rest[1..], tunnels, e);
      assert forall t :: t in rest <==> t == rest[0] || t in rest[1..];
    }
  }

  lemma ListedIsPermitted(wan: Dev, tunnels: seq<Dev>, p: Packet, e: Entry)
    requires e in ForwardingEntries(wan, tunnels) && e.chain == Forward
    ensures e.rule.target == Accept && (Matches(e.rule, p) ==> Permitted(p, wan, tunnels))
  {
    TunnelEntriesExactly(wan, tunnels, tunnels, e);
    var t :| t in tunnels && e in TunnelBlock(wan, t, tunnels);
    CrossEntriesExactly(t, tunnels, e);
  }

  lemma PermittedIsListed(wan: Dev, tunnels: seq<Dev>, p: Packet) returns (e: Entry)
    requires Permitted(p, wan, tunnels)
    ensures e in ForwardingEntries(wan, tunnels) && e.chain == Forward && Matches(e.rule, p)
  {
    var out := p.inDev in tunnels && p.outDev == wan;
    var back := !out && p.inDev == wan && p.outDev in tunnels && p.established;
    var t := if back then p.outDev else p.inDev;
    e := Entry(Forward, ForwardRule(p.inDev, p.outDev, back));
    AnyContains(p.src);
    AnyContains(p.dst);
    CrossEntriesExactly(t, tunnels, e);
    assert TunnelBlock(wan, t, tunnels)[0] == Entry(Forward, ForwardRule(t, wan, false));
    assert TunnelBlock(wan, t, tunnels)[1] == Entry(Forward, ForwardRule(wan, t, true));
    assert e in TunnelBlock(wan, t, tunnels);
    TunnelEntriesExactly(wan, tunnels, tunnels, e);
  }

  /** Some listed rule of the FORWARD chain matches the packet exactly if it is permitted; all accept. */
  lemma ListedForPermitted(wan: Dev, tunnels: seq<Dev>, p: Packet)
    ensures (exists e :: e in ForwardingEntries(wan, tunnels) && e.chain == Forward && Matches(e.rule, p)) <==>
              Permitted(p, wan, tunnels)
    ensures forall e :: e in ForwardingEntries(wan, tunnels) && e.chain == Forward ==> e.rule.target == Accept
  {
    forall e | e in ForwardingEntries(wan, tunnels) && e.chain == Forward
      ensures e.rule.target == Accept && (Matches(e.rule, p) ==> Permitted(p, wan, tunnels))
    {
      ListedIsPermitted(wan, tunnels, p, e);
    }
    if Permitted(p, wan, tunnels) {
      var e := PermittedIsListed(wan, tunnels, p);
    }
  }

  /** On a chain that does not decide a packet, ensuring rules without failures decides it exactly if one of them
      matches, and by one of them. */
  lemma {:induction false} EnsuredDecide(fw: Firewall, entries: seq<Entry>, c: Chain, p: Packet, passing: set<string>)
    requires FirstMatch(ChainOf(fw, c), p, passing) == None && forall e :: e in entries ==> !e.rule.target.Other?
    ensures var first := FirstMatch(ChainOf(AllEnsured(fw, entries, {}).0, c), p, passing);
      && (first.Some? <==> exists e :: e in entries && e.chain == c && Matches(e.rule, p))
      && (first.Some? ==> Entry(c, first.value) in entries)
    decreases entries
  {
    if entries != [] {
      var e, next := entries[0], RuleEnsured(fw, entries[0].chain, entries[0].rule, {}).0;
      assert forall x :: x in entries <==> x == e || x in entries[1..];
      FirstDecides(ChainOf(fw, c), p, passing);
      FirstMatchOfConcat(ChainOf(fw, c), [e.rule], p, passing);
      if e.chain == c && Matches(e.rule, p) {
        assert FirstMatch([e.rule], p, passing) == Some(e.rule);
        assert FirstMatch(ChainOf(next, c), p, passing) == Some(e.rule);
        DecidedStays(next, entries[1..], c, p, passing);
      } else {
        assert [e.rule][1..] == [];
        EnsuredDecide(next, entries[1..], c, p, passing);
      }
    }
  }

  lemma {:induction false} DecidedStays(fw: Firewall, entries: seq<Entry>, c: Chain, p: Packet, passing: set<string>)
    requires FirstMatch(ChainOf(fw, c), p, passing).Some?
    ensures FirstMatch(ChainOf(AllEnsured(fw, entries, {}).0, c), p, passing) == FirstMatch(ChainOf(fw, c), p, passing)
    decreases entries
  {
    if entries != [] {
      FirstMatchOfConcat(ChainOf(fw, c), [entries[0].rule], p, passing);
      DecidedStays(RuleEnsured(fw, entries[0].chain, entries[0].rule, {}).0, entries[1..], c, p, passing);
    }
  }

  /** What forwarding lets through: of the packets the chains do not decide already, exactly the permitted ones
      are accepted, and exactly those that leave by the uplink are masqueraded. */
  lemma ForwardingPermitsExactly(fw: Firewall, wan: Dev, tunnels: seq<Dev>, p: Packet, passing: set<string>)
    ensures var after := ForwardingApplied(fw, Some(wan), tunnels, {}).0;
      && (FirstMatch(fw.forward, p, passing) == None ==>
            var first := FirstMatch(after.forward, p, passing);
            (first.Some? <==> Permitted(p, wan, tunnels)) && (first.Some? ==> first.value.target == Accept))
      && (FirstMatch(fw.post, p, passing) == None ==>
            var first := FirstMatch(after.post, p, passing);
            (first.Some? <==> p.outDev == wan) && (first.Some? ==> first.value.target == Masquerade))
  {
    var entries := ForwardingEntries(wan, tunnels);
    ListedForPermitted(wan, tunnels, p);
    forall e | e in entries ensures e.chain == Forward || e == Entry(Postrouting, UplinkMasquerade(wan)) {
      if e in TunnelEntries(wan, tunnels, tunnels) {
        TunnelEntriesFromUplink(wan, tunnels, tunnels, e);
      }
    }
    assert entries[0] == Entry(Postrouting, UplinkMasquerade(wan));
    AnyContains(p.src);
    AnyContains(p.dst);
    if FirstMatch(fw.forward, p, passing) == None {
      EnsuredDecide(fw, entries, Forward, p, passing);
    }
    if FirstMatch(fw.post, p, passing) == None {
      EnsuredDecide(fw, entries, Postrouting, p, passing);
    }
  }
}
