// The policy rules of exits: what is installed, what is planned, and the diff between them
// (applyExits and listManagedRules in services/exit_router.js).
module ExitRules {
  import opened Ipv4
  import opened Kernel
  import opened ExitPlan

  const LAST_PRIORITY: nat := 3254

  /** Rules count as the gateway's by their priority alone. */
  predicate Managed(r: IpRule) {
    RULE_PRIORITY_BASE <= r.priority <= LAST_PRIORITY
  }

  /** How `ip rule show` prints a source: it leaves the length of a /32 out, and calls 0.0.0.0/0 "all". */
  datatype Shown = ShownAll | ShownBare(net: nat) | ShownRange(prefix: Prefix)

  function Show(p: Prefix): Shown {
    if p == DEFAULT_ROUTE then ShownAll
    else if p.Prefix? && p.len == 32 then ShownBare(p.net)
    else ShownRange(p)
  }

  /** What listManagedRules makes of it: a bare address gets its length back. */
  function ReadBack(s: Shown): Prefix {
    match s
    case ShownAll => DEFAULT_ROUTE
    case ShownBare(a) => Prefix(a, 32)
    case ShownRange(p) => p
  }

  predicate SamePair(r: IpRule, w: IpRule) {
    r.from == w.from && r.table == w.table
  }

  predicate HasPair(rules: seq<IpRule>, r: IpRule) {
    exists w :: w in rules && SamePair(w, r)
  }

  function ManagedOf(rules: seq<IpRule>): seq<IpRule> {
    if rules == [] then []
    else if Managed(rules[0]) then [rules[0]] + ManagedOf(rules[1..])
    else ManagedOf(rules[1..])
  }

  function ForeignOf(rules: seq<IpRule>): seq<IpRule> {
    if rules == [] then []
    else if Managed(rules[0]) then ForeignOf(rules[1..])
    else [rules[0]] + ForeignOf(rules[1..])
  }

  function Installed(rules: seq<IpRule>, f: set<Cmd>): seq<IpRule> {
    if RuleShow in f then [] else ManagedOf(rules)
  }

  /** The first loop: one deletion per installed rule whose pair is not planned. */
  function StaleDeleted(rules: seq<IpRule>, installed: seq<IpRule>, planned: seq<IpRule>, f: set<Cmd>): seq<IpRule>
    decreases installed
  {
    if installed == [] then rules
    else if HasPair(planned, installed[0]) || RuleDel(installed[0]) in f || installed[0] !in rules
    then StaleDeleted(rules, installed[1..], planned, f)
    else StaleDeleted(RemoveFirst(rules, installed[0]), installed[1..], planned, f)
  }

  /** The second loop: one addition per planned rule whose pair was not installed. */
  function MissingAdded(rules: seq<IpRule>, installed: seq<IpRule>, planned: seq<IpRule>, f: set<Cmd>): seq<IpRule>
    decreases planned
  {
    if planned == [] then rules
    else if HasPair(installed, planned[0]) || RuleAdd(planned[0]) in f || !planned[0].from.Prefix?
         || planned[0] in rules
    then MissingAdded(rules, installed, planned[1..], f)
    else MissingAdded(InsertRule(rules, planned[0]), installed, planned[1..], f)
  }

  function RulesReconciled(rules: seq<IpRule>, planned: seq<IpRule>, f: set<Cmd>): seq<IpRule> {
    var installed := Installed(rules, f);
    MissingAdded(StaleDeleted(rules, installed, planned, f), installed, planned, f)
  }

  // ------------------------------------------------------------------ methods

  lemma ReadBackInvertsShow(p: Prefix)
    ensures ReadBack(Show(p)) == p
  {
  }

  method ListManagedRules(k: Kernel) returns (installed: seq<IpRule>)
    ensures installed == Installed(k.rules, k.faults)
  {
    installed := [];
    var shown := k.Show(RuleShow);
    if !shown {
      return;
    }
    for i := 0 to |k.rules|
      invariant installed + ManagedOf(k.rules[i..]) == ManagedOf(k.rules)
    {
      assert k.rules[i..][1..] == k.rules[i + 1..];
      var line := k.rules[i];
      if line.priority < RULE_PRIORITY_BASE || line.priority > RULE_PRIORITY_BASE + 254 {
        continue;
      }
      ReadBackInvertsShow(line.from);
      installed := installed + [IpRule(line.priority, ReadBack(Show(line.from)), line.table)];
    }
  }

  /** A moment of the pass: every rule that was installed and is planned is in place, and every rule in
      place was installed or is planned. */
  ghost predicate SteadyRules(was: Net, s: Net, planned: seq<IpRule>) {
    && s == was.(rules := s.rules)
    && (forall r :: r in was.rules && HasPair(planned, r) ==> r in s.rules)
    && (forall r :: r in s.rules ==> r in was.rules || r in planned)
    && (Sorted(was.rules) ==> Sorted(s.rules))
  }

  ghost predicate Sorted(rules: seq<IpRule>) {
    forall i, j :: 0 <= i < j < |rules| ==> rules[i].priority <= rules[j].priority
  }

  /** The installed pairs are the planned pairs already. */
  ghost predicate NothingToIssue(installed: seq<IpRule>, planned: seq<IpRule>) {
    && (forall r :: r in installed ==> HasPair(planned, r))
    && (forall r :: r in planned ==> HasPair(installed, r))
  }

  /** The diff. At no moment is a rule missing that is both installed and planned, and no `ip rule`
      command at all is issued, not even a failing one, exactly when the pairs agree. */
  method ReconcileRules(k: Kernel, planned: seq<IpRule>)
    modifies k`rules, k`states
    ensures k.rules == RulesReconciled(old(k.rules), planned, k.faults)
    ensures old(k.states) <= k.states && SteadyRules(old(k.Now()), k.Now(), planned)
    ensures forall i :: |old(k.states)| <= i < |k.states| ==> SteadyRules(old(k.Now()), k.states[i], planned)
    ensures k.states == old(k.states) <==> NothingToIssue(Installed(old(k.rules), k.faults), planned)
  {
    var installed := ListManagedRules(k);
    ghost var now0 := k.Now();
    DeleteStale(k, installed, planned);
    ghost var now1, states1 := k.Now(), k.states;
    AddMissing(k, installed, planned);
    SteadyOnwards(now0, now1, k.Now(), planned);
    forall j | |states1| <= j < |k.states| ensures SteadyRules(now0, k.states[j], planned) {
      SteadyOnwards(now0, now1, k.states[j], planned);
    }
  }

  lemma SteadyOnwards(was: Net, mid: Net, s: Net, planned: seq<IpRule>)
    requires SteadyRules(was, mid, planned) && SteadyRules(mid, s, planned)
    ensures SteadyRules(was, s, planned)
  {
  }

  lemma DeletionIsSteady(was: Net, mid: Net, planned: seq<IpRule>, x: IpRule)
    requires SteadyRules(was, mid, planned) && !HasPair(planned, x)
    ensures SteadyRules(was, mid.(rules := RemoveFirst(mid.rules, x)), planned)
  {
    forall r
      ensures r in mid.rules && r != x ==> r in RemoveFirst(mid.rules, x)
      ensures r in RemoveFirst(mid.rules, x) ==> r in mid.rules
    {
      RemoveFirstKeeps(mid.rules, x, r);
    }
    if Sorted(mid.rules) {
      RemoveSorted(mid.rules, x);
    }
  }

  lemma AdditionIsSteady(was: Net, mid: Net, planned: seq<IpRule>, x: IpRule)
    requires SteadyRules(was, mid, planned) && x in planned
    ensures SteadyRules(was, mid.(rules := InsertRule(mid.rules, x)), planned)
  {
    forall r ensures r in InsertRule(mid.rules, x) <==> r in mid.rules || r == x {
      InsertMembers(mid.rules, x, r);
    }
    if Sorted(mid.rules) {
      InsertSorted(mid.rules, x);
    }
  }

  /** The first loop of the diff. */
  method DeleteStale(k: Kernel, installed: seq<IpRule>, planned: seq<IpRule>)
    modifies k`rules, k`states
    ensures k.rules == StaleDeleted(old(k.rules), installed, planned, k.faults)
    ensures old(k.states) <= k.states && SteadyRules(old(k.Now()), k.Now(), planned)
    ensures forall i :: |old(k.states)| <= i < |k.states| ==> SteadyRules(old(k.Now()), k.states[i], planned)
    ensures k.states == old(k.states) <==> forall j :: 0 <= j < |installed| ==> HasPair(planned, installed[j])
  {
    for i := 0 to |installed|
      invariant StaleDeleted(k.rules, installed[i..], planned, k.faults)
             == StaleDeleted(old(k.rules), installed, planned, k.faults)
      invariant SteadyRules(old(k.Now()), k.Now(), planned)
      invariant k.states == old(k.states) <==> forall j :: 0 <= j < i ==> HasPair(planned, installed[j])
      invariant old(k.states) <= k.states
      invariant forall j :: |old(k.states)| <= j < |k.states| ==> SteadyRules(old(k.Now()), k.states[j], planned)
    {
      assert installed[i..][1..] == installed[i + 1..];
      if !HasPair(planned, installed[i]) {
        DeletionIsSteady(old(k.Now()), k.Now(), planned, installed[i]);
        var _ := k.RuleDel(installed[i]);
      }
    }
  }

  /** The second loop of the diff. */
  method AddMissing(k: Kernel, installed: seq<IpRule>, planned: seq<IpRule>)
    modifies k`rules, k`states
    ensures k.rules == MissingAdded(old(k.rules), installed, planned, k.faults)
    ensures old(k.states) <= k.states && SteadyRules(old(k.Now()), k.Now(), planned)
    ensures forall i :: |old(k.states)| <= i < |k.states| ==> SteadyRules(old(k.Now()), k.states[i], planned)
    ensures k.states == old(k.states) <==> forall j :: 0 <= j < |planned| ==> HasPair(installed, planned[j])
  {
    for i := 0 to |planned|
      invariant MissingAdded(k.rules, installed, planned[i..], k.faults)
             == MissingAdded(old(k.rules), installed, planned, k.faults)
      invariant SteadyRules(old(k.Now()), k.Now(), planned)
      invariant k.states == old(k.states) <==> forall j :: 0 <= j < i ==> HasPair(installed, planned[j])
      invariant old(k.states) <= k.states
      invariant forall j :: |old(k.states)| <= j < |k.states| ==> SteadyRules(old(k.Now()), k.states[j], planned)
    {
      assert planned[i..][1..] == planned[i + 1..];
      if !HasPair(installed, planned[i]) {
        AdditionIsSteady(old(k.Now()), k.Now(), planned, planned[i]);
        var _ := k.RuleAdd(planned[i]);
      }
    }
  }

  lemma {:induction false} RemoveFirstKeeps(rules: seq<IpRule>, x: IpRule, r: IpRule)
    ensures r in rules && r != x ==> r in RemoveFirst(rules, x)
    ensures r in RemoveFirst(rules, x) ==> r in rules
  {
    if rules != [] && rules[0] != x {
      RemoveFirstKeeps(rules[1..], x, r);
    }
  }

  lemma {:induction false} InsertMembers(rules: seq<IpRule>, x: IpRule, r: IpRule)
    ensures r in InsertRule(rules, x) <==> r in rules || r == x
  {
    if rules != [] && rules[0].priority <= x.priority {
      InsertMembers(rules[1..], x, r);
    }
  }

  lemma {:induction false} InsertSorted(rules: seq<IpRule>, x: IpRule)
    requires Sorted(rules)
    ensures Sorted(InsertRule(rules, x))
  {
    if rules == [] || x.priority < rules[0].priority {
    } else {
      InsertSorted(rules[1..], x);
      var rest := InsertRule(rules[1..], x);
      forall r | r in rest ensures rules[0].priority <= r.priority {
        InsertMembers(rules[1..], x, r);
      }
    }
  }

  lemma {:induction false} RemoveSorted(rules: seq<IpRule>, x: IpRule)
    requires Sorted(rules)
    ensures Sorted(RemoveFirst(rules, x))
    ensures forall r :: r in RemoveFirst(rules, x) ==> r in rules
  {
    if rules != [] && rules[0] != x {
      RemoveSorted(rules[1..], x);
      var rest := RemoveFirst(rules[1..], x);
      forall r | r in rest ensures rules[0].priority <= r.priority {
        var i :| 0 <= i < |rules[1..]| && rules[1..][i] == r;
        assert rules[i + 1] == r;
      }
    }
  }

  lemma {:induction false} DeletedSorted(rules: seq<IpRule>, installed: seq<IpRule>, planned: seq<IpRule>, f: set<Cmd>)
    requires Sorted(rules)
    ensures Sorted(StaleDeleted(rules, installed, planned, f))
    decreases installed
  {
    if installed != [] {
      RemoveSorted(rules, installed[0]);
      if HasPair(planned, installed[0]) || RuleDel(installed[0]) in f || installed[0] !in rules {
        DeletedSorted(rules, installed[1..], planned, f);
      } else {
        DeletedSorted(RemoveFirst(rules, installed[0]), installed[1..], planned, f);
      }
    }
  }

  lemma {:induction false} AddedSorted(rules: seq<IpRule>, installed: seq<IpRule>, planned: seq<IpRule>, f: set<Cmd>)
    requires Sorted(rules)
    ensures Sorted(MissingAdded(rules, installed, planned, f))
    decreases planned
  {
    if planned != [] {
      InsertSorted(rules, planned[0]);
      if HasPair(installed, planned[0]) || RuleAdd(planned[0]) in f || !planned[0].from.Prefix? || planned[0] in rules {
        AddedSorted(rules, installed, planned[1..], f);
      } else {
        AddedSorted(InsertRule(rules, planned[0]), installed, planned[1..], f);
      }
    }
  }

  // ---------------------------------------------------------- what the diff does

  /** The rule goes in the first loop. */
  predicate Dropped(r: IpRule, planned: seq<IpRule>, f: set<Cmd>) {
    Managed(r) && !HasPair(planned, r) && RuleDel(r) !in f
  }

  function Kept(rules: seq<IpRule>, planned: seq<IpRule>, f: set<Cmd>): seq<IpRule> {
    if rules == [] then []
    else if Dropped(rules[0], planned, f) then Kept(rules[1..], planned, f)
    else [rules[0]] + Kept(rules[1..], planned, f)
  }

  /** Deleting rule by rule, by value, takes out exactly the stale ones, duplicates included, and leaves
      the others in order. */
  lemma {:induction false} DeletionIsFiltering(done: seq<IpRule>, rest: seq<IpRule>, planned: seq<IpRule>, f: set<Cmd>)
    requires forall r :: r in done ==> !Dropped(r, planned, f)
    ensures StaleDeleted(done + rest, ManagedOf(rest), planned, f) == done + Kept(rest, planned, f)
    decreases rest
  {
    if rest != [] {
      var r := rest[0];
      DeletionStep(done + rest, rest, planned, f);
      if Dropped(r, planned, f) {
        RemoveFirstAfter(done, rest, r);
        DeletionIsFiltering(done, rest[1..], planned, f);
      } else {
        assert done + rest == (done + [r]) + rest[1..];
        DeletionIsFiltering(done + [r], rest[1..], planned, f);
        assert (done + [r]) + Kept(rest[1..], planned, f) == done + Kept(rest, planned, f);
      }
    } else {
      assert done + rest == done;
    }
  }

  /** What the first loop does about the first of the rules it has not come to yet. */
  lemma DeletionStep(rules: seq<IpRule>, rest: seq<IpRule>, planned: seq<IpRule>, f: set<Cmd>)
    requires rest != [] && rest[0] in rules
    ensures StaleDeleted(rules, ManagedOf(rest), planned, f) ==
            StaleDeleted(if Dropped(rest[0], planned, f) then RemoveFirst(rules, rest[0]) else rules,
                         ManagedOf(rest[1..]), planned, f)
  {
    if Managed(rest[0]) {
      assert ManagedOf(rest)[1..] == ManagedOf(rest[1..]);
    }
  }

  lemma {:induction false} RemoveFirstAfter(done: seq<IpRule>, rest: seq<IpRule>, r: IpRule)
    requires r !in done && rest != [] && rest[0] == r
    ensures RemoveFirst(done + rest, r) == done + rest[1..]
    decreases done
  {
    if done == [] {
      assert done + rest == rest;
    } else {
      assert (done + rest)[1..] == done[1..] + rest;
      RemoveFirstAfter(done[1..], rest, r);
    }
  }

  lemma {:induction false} KeptMembers(rules: seq<IpRule>, planned: seq<IpRule>, f: set<Cmd>, r: IpRule)
    ensures r in Kept(rules, planned, f) <==> r in rules && !Dropped(r, planned, f)
  {
    if rules != [] {
      KeptMembers(rules[1..], planned, f, r);
    }
  }

  lemma {:induction false} KeptForeign(rules: seq<IpRule>, planned: seq<IpRule>, f: set<Cmd>)
    ensures ForeignOf(Kept(rules, planned, f)) == ForeignOf(rules)
  {
    if rules != [] {
      KeptForeign(rules[1..], planned, f);
      var rest := Kept(rules[1..], planned, f);
      assert ([rules[0]] + rest)[1..] == rest;
    }
  }

  lemma {:induction false} InsertForeign(rules: seq<IpRule>, x: IpRule)
    requires Managed(x)
    ensures ForeignOf(InsertRule(rules, x)) == ForeignOf(rules)
  {
    if rules == [] {
    } else if x.priority < rules[0].priority {
      assert ([x] + rules)[1..] == rules;
    } else {
      InsertForeign(rules[1..], x);
      var rest := InsertRule(rules[1..], x);
      assert ([rules[0]] + rest)[1..] == rest;
    }
  }

  lemma {:induction false} AddedForeign(rules: seq<IpRule>, installed: seq<IpRule>, planned: seq<IpRule>, f: set<Cmd>)
    requires forall r :: r in planned ==> Managed(r)
    ensures ForeignOf(MissingAdded(rules, installed, planned, f)) == ForeignOf(rules)
    decreases planned
  {
    if planned != [] {
      if HasPair(installed, planned[0]) || RuleAdd(planned[0]) in f || !planned[0].from.Prefix? || planned[0] in rules {
        AddedForeign(rules, installed, planned[1..], f);
      } else {
        InsertForeign(rules, planned[0]);
        AddedForeign(InsertRule(rules, planned[0]), installed, planned[1..], f);
      }
    }
  }

  lemma {:induction false} AddedMembers(rules: seq<IpRule>, installed: seq<IpRule>, planned: seq<IpRule>, f: set<Cmd>,
                                        r: IpRule)
    ensures r in MissingAdded(rules, installed, planned, f) <==>
              r in rules || (r in planned && !HasPair(installed, r) && RuleAdd(r) !in f && r.from.Prefix?)
    decreases planned
  {
    if planned != [] {
      if HasPair(installed, planned[0]) || RuleAdd(planned[0]) in f || !planned[0].from.Prefix? || planned[0] in rules {
        AddedMembers(rules, installed, planned[1..], f, r);
      } else {
        InsertMembers(rules, planned[0], r);
        AddedMembers(InsertRule(rules, planned[0]), installed, planned[1..], f, r);
      }
    }
  }

  lemma {:induction false} ManagedMembers(rules: seq<IpRule>, r: IpRule)
    ensures r in ManagedOf(rules) <==> r in rules && Managed(r)
  {
    if rules != [] {
      ManagedMembers(rules[1..], r);
    }
  }

  /** Which rules there are after the diff, for any failing commands: if the rules cannot be shown, none goes. */
  lemma ReconciledMembers(rules: seq<IpRule>, planned: seq<IpRule>, f: set<Cmd>, r: IpRule)
    ensures r in RulesReconciled(rules, planned, f) <==>
              || (r in rules && (RuleShow in f || !Dropped(r, planned, f)))
              || (r in planned && !HasPair(Installed(rules, f), r) && RuleAdd(r) !in f && r.from.Prefix?)
  {
    if RuleShow in f {
      AddedMembers(rules, [], planned, f, r);
    } else {
      DeletionIsFiltering([], rules, planned, f);
      assert [] + rules == rules;
      assert [] + Kept(rules, planned, f) == Kept(rules, planned, f);
      KeptMembers(rules, planned, f, r);
      AddedMembers(Kept(rules, planned, f), ManagedOf(rules), planned, f, r);
    }
  }

  /** Rules outside the priority range are left alone, in their order, whatever fails. */
  lemma ForeignRulesStay(rules: seq<IpRule>, planned: seq<IpRule>, f: set<Cmd>)
    requires forall r :: r in planned ==> Managed(r)
    ensures ForeignOf(RulesReconciled(rules, planned, f)) == ForeignOf(rules)
  {
    var installed := Installed(rules, f);
    if RuleShow !in f {
      DeletionIsFiltering([], rules, planned, f);
      assert [] + rules == rules;
      assert [] + Kept(rules, planned, f) == Kept(rules, planned, f);
      KeptForeign(rules, planned, f);
    }
    AddedForeign(StaleDeleted(rules, installed, planned, f), installed, planned, f);
  }

  /** The rule commands all work. */
  ghost predicate RuleCommandsWork(f: set<Cmd>) {
    RuleShow !in f && forall r :: RuleDel(r) !in f && RuleAdd(r) !in f
  }

  /** When the rule commands work, the pairs installed in the range are the planned pairs, from any
      start: an operator's rule that lies in the range goes, too. */
  lemma PairsConverge(rules: seq<IpRule>, planned: seq<IpRule>, f: set<Cmd>, r: IpRule)
    requires RuleCommandsWork(f)
    requires forall w :: w in planned ==> Managed(w) && w.from.Prefix?
    ensures HasPair(ManagedOf(RulesReconciled(rules, planned, f)), r) <==> HasPair(planned, r)
  {
    var after := RulesReconciled(rules, planned, f);
    if HasPair(ManagedOf(after), r) {
      var w :| w in ManagedOf(after) && SamePair(w, r);
      ManagedMembers(after, w);
      ReconciledMembers(rules, planned, f, w);
      if w !in planned {
        var v :| v in planned && SamePair(v, w);
        assert SamePair(v, r);
      }
    }
    if HasPair(planned, r) {
      var w :| w in planned && SamePair(w, r);
      if HasPair(ManagedOf(rules), w) {
        var v :| v in ManagedOf(rules) && SamePair(v, w);
        ManagedMembers(rules, v);
        assert HasPair(planned, v) by { assert SamePair(w, v); }
        ReconciledMembers(rules, planned, f, v);
        ManagedMembers(after, v);
        assert SamePair(v, r);
      } else {
        ReconciledMembers(rules, planned, f, w);
        ManagedMembers(after, w);
      }
    }
  }

  /** The rules whose priority is below 3000 or above 3254. */
  function Outside(rules: seq<IpRule>): seq<IpRule> {
    if rules == [] then []
    else if rules[0].priority < 3000 || rules[0].priority > 3254 then [rules[0]] + Outside(rules[1..])
    else Outside(rules[1..])
  }

  lemma {:induction false} OutsideIsForeign(rules: seq<IpRule>)
    ensures Outside(rules) == ForeignOf(rules)
  {
    if rules != [] {
      OutsideIsForeign(rules[1..]);
    }
  }

  /** The range the gateway takes for its own is 3000 to 3254 and no more: whatever fails, a rule outside it is
      there afterwards exactly if it was before, and in the same order. Inside, what is not planned goes when
      the rule commands work. */
  lemma OwnsExactlyItsRange(rules: seq<IpRule>, planned: seq<IpRule>, f: set<Cmd>)
    requires forall w :: w in planned ==> 3000 <= w.priority <= 3254
    ensures forall r: IpRule :: r.priority < 3000 || r.priority > 3254 ==>
              (r in RulesReconciled(rules, planned, f) <==> r in rules)
    ensures Outside(RulesReconciled(rules, planned, f)) == Outside(rules)
    ensures RuleCommandsWork(f) ==>
              forall r :: r in RulesReconciled(rules, planned, f) && 3000 <= r.priority <= 3254 ==>
                exists w :: w in planned && w.from == r.from && w.table == r.table
  {
    var after := RulesReconciled(rules, planned, f);
    ForeignRulesStay(rules, planned, f);
    OutsideIsForeign(rules);
    OutsideIsForeign(after);
    forall r: IpRule | r.priority < 3000 || r.priority > 3254 ensures r in after <==> r in rules {
      ReconciledMembers(rules, planned, f, r);
    }
    if RuleCommandsWork(f) {
      forall r | r in after && 3000 <= r.priority <= 3254
        ensures exists w :: w in planned && w.from == r.from && w.table == r.table
      {
        ReconciledMembers(rules, planned, f, r);
        if HasPair(planned, r) {
          var w :| w in planned && SamePair(w, r);
        }
      }
    }
  }

  /** So an operator's rule with priority 3100 goes. */
  lemma OperatorRuleInRangeIsDeleted(from: Prefix, table: nat)
    ensures RulesReconciled([IpRule(3100, from, table)], [], {}) == []
  {
    var r := IpRule(3100, from, table);
    assert ManagedOf([r]) == [r];
    assert StaleDeleted([r], [r], [], {}) == StaleDeleted([], [], [], {});
  }

  /** After a pass whose rule commands worked, the next one issues no `ip rule` command. */
  lemma NextPassIssuesNothing(rules: seq<IpRule>, planned: seq<IpRule>, f: set<Cmd>)
    requires RuleCommandsWork(f)
    requires forall w :: w in planned ==> Managed(w) && w.from.Prefix?
    ensures NothingToIssue(Installed(RulesReconciled(rules, planned, f), f), planned)
  {
    var installed := ManagedOf(RulesReconciled(rules, planned, f));
    forall r | r in installed ensures HasPair(planned, r) {
      assert HasPair(installed, r) by { assert SamePair(r, r); }
      PairsConverge(rules, planned, f, r);
    }
    forall r | r in planned ensures HasPair(installed, r) {
      assert HasPair(planned, r) by { assert SamePair(r, r); }
      PairsConverge(rules, planned, f, r);
    }
  }

  /** Nothing for the diff to do: it would issue no `ip rule` command that changes anything. */
  ghost predicate RulesSettled(rules: seq<IpRule>, planned: seq<IpRule>) {
    && (forall r :: r in rules && Managed(r) ==> HasPair(planned, r))
    && (forall w :: w in planned ==> HasPair(ManagedOf(rules), w) || w in rules || !w.from.Prefix?)
  }

  lemma PassSettlesRules(rules: seq<IpRule>, planned: seq<IpRule>)
    ensures RulesSettled(RulesReconciled(rules, planned, {}), planned)
  {
    var after := RulesReconciled(rules, planned, {});
    forall r | r in after && Managed(r) ensures HasPair(planned, r) {
      ReconciledMembers(rules, planned, {}, r);
      assert r in planned ==> SamePair(r, r);
    }
    forall w | w in planned ensures HasPair(ManagedOf(after), w) || w in after || !w.from.Prefix? {
      if HasPair(ManagedOf(rules), w) {
        var v :| v in ManagedOf(rules) && SamePair(v, w);
        ManagedMembers(rules, v);
        assert HasPair(planned, v) by { assert SamePair(w, v); }
        ReconciledMembers(rules, planned, {}, v);
        ManagedMembers(after, v);
      } else {
        ReconciledMembers(rules, planned, {}, w);
      }
    }
  }

  lemma {:induction false} NothingToDelete(rules: seq<IpRule>, installed: seq<IpRule>, planned: seq<IpRule>,
                                           f: set<Cmd>)
    requires forall r :: r in installed ==> HasPair(planned, r)
    ensures StaleDeleted(rules, installed, planned, f) == rules
    decreases installed
  {
    if installed != [] {
      assert installed[0] in installed;
      NothingToDelete(rules, installed[1..], planned, f);
    }
  }

  lemma {:induction false} NothingToAdd(rules: seq<IpRule>, installed: seq<IpRule>, planned: seq<IpRule>, f: set<Cmd>)
    requires forall w :: w in planned ==> HasPair(installed, w) || w in rules || !w.from.Prefix?
    ensures MissingAdded(rules, installed, planned, f) == rules
    decreases planned
  {
    if planned != [] {
      assert planned[0] in planned;
      NothingToAdd(rules, installed, planned[1..], f);
    }
  }

  /** The next pass leaves the rules alone, whatever fails in it, exactly when it can read them back, or would
      add none anew. */
  lemma SettledRulesStayExactly(rules: seq<IpRule>, planned: seq<IpRule>, f: set<Cmd>)
    requires RulesSettled(rules, planned)
    ensures RulesReconciled(rules, planned, f) == rules <==> RereadOrIdle(rules, planned, f)
  {
    if RuleShow !in f {
      forall r | r in ManagedOf(rules) ensures HasPair(planned, r) {
        ManagedMembers(rules, r);
      }
      NothingToDelete(rules, ManagedOf(rules), planned, f);
      NothingToAdd(rules, ManagedOf(rules), planned, f);
    } else if RereadOrIdle(rules, planned, f) {
      NothingIsAdded(rules, planned, f);
    } else {
      var w :| w in planned && w !in rules && RuleAdd(w) !in f && w.from.Prefix?;
      ReconciledMembers(rules, planned, f, w);
    }
  }

  /** The rules can be shown, or each planned one is there, cannot be added, or is malformed. */
  predicate RereadOrIdle(rules: seq<IpRule>, planned: seq<IpRule>, f: set<Cmd>) {
    RuleShow !in f || forall w :: w in planned ==> w in rules || RuleAdd(w) in f || !w.from.Prefix?
  }

  lemma {:induction false} NothingIsAdded(rules: seq<IpRule>, planned: seq<IpRule>, f: set<Cmd>)
    requires forall w :: w in planned ==> w in rules || RuleAdd(w) in f || !w.from.Prefix?
    ensures MissingAdded(rules, [], planned, f) == rules
    decreases planned
  {
    if planned != [] {
      assert planned[0] in planned;
      NothingIsAdded(rules, planned[1..], f);
    }
  }
}
