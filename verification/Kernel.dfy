// The host the gateway configures: WireGuard links, addresses, routes, policy rules and iptables
// chains, changed only by the commands the source runs. A command that is in `faults` fails without
// effect; every statement below is for an arbitrary set of failing commands.
module Kernel {
  import opened Wrappers
  import opened Ipv4
  import opened MeshAddressing

  /** A WireGuard public key. */
  type Key = string

  /** Interface names: `wg-mesh`, `wg-exit-<n>`, and any other. */
  datatype Dev = Mesh | Exit(site: nat) | Named(name: string)

  /** A WireGuard link. `owner` is its AllowedIPs trie: a prefix belongs to at most one peer. */
  datatype Link = Link(addrs: set<Cidr>, peers: set<Key>, owner: map<Prefix, Key>)

  const FRESH_LINK := Link({}, {}, map[])

  /** One line of `ip rule`: traffic from `from` looks up `table`. */
  datatype IpRule = IpRule(priority: nat, from: Prefix, table: nat)

  /** `main` is the main routing table, `tables` the default route of each other table, `local` the
      ranges claimed with `ip route add local`, `rules` the policy rules in the order they are tried. */
  datatype Net = Net(
    links: map<Dev, Link>,
    main: map<Prefix, Dev>,
    tables: map<nat, Dev>,
    local: set<Prefix>,
    rules: seq<IpRule>)

  datatype Target = Accept | Masquerade | Netmap(to: Prefix) | Other(name: string)

  /** An iptables rule. `extra` stands for matches no rule of the gateway uses. */
  datatype Rule = Rule(
    inDev: Option<Dev>, outDev: Option<Dev>, src: Prefix, dst: Prefix,
    established: bool, extra: string, target: Target)

  datatype Chain = Prerouting | Postrouting | Forward

  datatype Firewall = Firewall(pre: seq<Rule>, post: seq<Rule>, forward: seq<Rule>)

  function ChainOf(fw: Firewall, c: Chain): seq<Rule> {
    match c
    case Prerouting => fw.pre
    case Postrouting => fw.post
    case Forward => fw.forward
  }

  function WithChain(fw: Firewall, c: Chain, rules: seq<Rule>): Firewall {
    match c
    case Prerouting => fw.(pre := rules)
    case Postrouting => fw.(post := rules)
    case Forward => fw.(forward := rules)
  }

  /** A LAN mapping as the Redis tracker remembers it. */
  datatype Mapping = Mapping(shadow: Prefix, physical: Prefix)

  datatype Cmd =
    | DevShow(dev: Dev) | LinkAdd(dev: Dev) | LinkUp(dev: Dev) | LinkDel(dev: Dev) | LinkShow
    | AddrAdd(dev: Dev, cidr: Cidr) | AddrDel(dev: Dev, cidr: Cidr) | AddrShow(dev: Dev)
    | WgKey(dev: Dev) | WgSet(dev: Dev, key: Key, allowed: seq<Prefix>) | WgRemove(dev: Dev, key: Key)
    | PeersShow(dev: Dev) | AllowedShow(dev: Dev)
    | RouteAdd(prefix: Prefix, dev: Dev) | RouteDel(prefix: Prefix, dev: Dev) | RouteShow(prefix: Prefix, dev: Dev)
    | LocalAdd(prefix: Prefix) | LocalDel(prefix: Prefix) | LocalShow(prefix: Prefix)
    | TableDefault(table: nat, dev: Dev) | TableFlush(table: nat)
    | RuleAdd(rule: IpRule) | RuleDel(rule: IpRule) | RuleShow
    | DefaultShow | IptVersion
    | IptCheck(chain: Chain, entry: Rule) | IptAppend(chain: Chain, entry: Rule) | IptDelete(chain: Chain, entry: Rule)
    | TrackAdd(mapping: Mapping) | TrackDel(mapping: Mapping) | TrackList

  /** How a command ends. `Exists` is the error text "File exists", which callers tell apart. */
  datatype Outcome = Done | Exists | Failed

  // ------------------------------------------------------- what a command does

  /** `wg set <dev> peer <key> allowed-ips <list>`: replaces the peer's list, and takes each listed
      prefix from whichever peer held it (cryptokey routing, WireGuard whitepaper, section 2). */
  function SetAllowedIps(l: Link, key: Key, allowed: seq<Prefix>): Link {
    l.(peers := l.peers + {key},
       owner := map p | p in l.owner.Keys + (set q | q in allowed) && (p in allowed || l.owner[p] != key)
                 :: if p in allowed then key else l.owner[p])
  }

  function DropPeer(l: Link, key: Key): Link {
    l.(peers := l.peers - {key}, owner := map p | p in l.owner && l.owner[p] != key :: l.owner[p])
  }

  function WithAddrs(l: Link, addrs: set<Cidr>): Link { l.(addrs := addrs) }

  function WithoutDev<K>(m: map<K, Dev>, dev: Dev): map<K, Dev> {
    map p | p in m && m[p] != dev :: m[p]
  }

  /** A new rule goes behind every rule of the same or a smaller priority number. */
  function InsertRule(rules: seq<IpRule>, r: IpRule): seq<IpRule> {
    if rules == [] then [r]
    else if r.priority < rules[0].priority then [r] + rules
    else [rules[0]] + InsertRule(rules[1..], r)
  }

  /** Without the first entry equal to `x`, if there is one. */
  function RemoveFirst<T(==)>(xs: seq<T>, x: T): seq<T> {
    if xs == [] then []
    else if xs[0] == x then xs[1..]
    else [xs[0]] + RemoveFirst(xs[1..], x)
  }

  // ----------------------------------------------------------------- commands

  /** The kernel. Every method is one command; `states` and `chains` record what there is after each that
      can change the network state or the firewall. */
  class Kernel {
    var links: map<Dev, Link>
    var main: map<Prefix, Dev>
    var tables: map<nat, Dev>
    var local: set<Prefix>
    var rules: seq<IpRule>
    var fw: Firewall
    var faults: set<Cmd>
    ghost var states: seq<Net>
    ghost var chains: seq<Firewall>

    constructor (net: Net, fw: Firewall, faults: set<Cmd>)
      ensures Now() == net && this.fw == fw && this.faults == faults
      ensures states == [net] && chains == [fw]
    {
      links, main, tables, local, rules := net.links, net.main, net.tables, net.local, net.rules;
      this.fw, this.faults := fw, faults;
      states, chains := [net], [fw];
    }

    function Now(): Net
      reads this`links, this`main, this`tables, this`local, this`rules
    {
      Net(links, main, tables, local, rules)
    }

    /** Any command that only reports. */
    method Show(c: Cmd) returns (ok: bool)
      ensures ok == (c !in faults)
    {
      ok := c !in faults;
    }

    /** `ip link add dev <dev> type wireguard`, or `wireguard-go <dev>`. */
    method LinkAdd(dev: Dev) returns (r: Outcome)
      modifies this`links, this`states
      ensures r == if Cmd.LinkAdd(dev) in faults then Failed else if dev in old(links) then Exists else Done
      ensures links == if r == Done then old(links)[dev := FRESH_LINK] else old(links)
      ensures states == old(states) + [Now()]
    {
      r := if Cmd.LinkAdd(dev) in faults then Failed else if dev in links then Exists else Done;
      if r == Done {
        links := links[dev := FRESH_LINK];
      }
      states := states + [Now()];
    }

    /** `ip link del dev <dev>`: routes through it go with it. */
    method LinkDel(dev: Dev)
      modifies this`links, this`main, this`tables, this`states
      ensures links == if Cmd.LinkDel(dev) in faults then old(links) else old(links) - {dev}
      ensures main == if Cmd.LinkDel(dev) in faults then old(main) else WithoutDev(old(main), dev)
      ensures tables == if Cmd.LinkDel(dev) in faults then old(tables) else WithoutDev(old(tables), dev)
      ensures states == old(states) + [Now()]
    {
      if Cmd.LinkDel(dev) !in faults {
        links, main, tables := links - {dev}, WithoutDev(main, dev), WithoutDev(tables, dev);
      }
      states := states + [Now()];
    }

    method AddrAdd(dev: Dev, a: Cidr) returns (r: Outcome)
      requires dev in links
      modifies this`links, this`states
      ensures r == if Cmd.AddrAdd(dev, a) in faults then Failed else if a in old(links)[dev].addrs then Exists else Done
      ensures links == if r == Failed then old(links)
                else old(links)[dev := WithAddrs(old(links)[dev], old(links)[dev].addrs + {a})]
      ensures states == old(states) + [Now()]
    {
      var l := links[dev];
      r := if Cmd.AddrAdd(dev, a) in faults then Failed else if a in l.addrs then Exists else Done;
      if r != Failed {
        links := links[dev := WithAddrs(l, l.addrs + {a})];
      }
      states := states + [Now()];
    }

    method AddrDel(dev: Dev, a: Cidr)
      requires dev in links
      modifies this`links, this`states
      ensures links == if Cmd.AddrDel(dev, a) in faults then old(links)
                       else old(links)[dev := WithAddrs(old(links)[dev], old(links)[dev].addrs - {a})]
      ensures states == old(states) + [Now()]
    {
      if Cmd.AddrDel(dev, a) !in faults {
        links := links[dev := WithAddrs(links[dev], links[dev].addrs - {a})];
      }
      states := states + [Now()];
    }

    /** `wg set <dev> peer <key> allowed-ips <allowed>`. */
    method WgSet(dev: Dev, key: Key, allowed: seq<Prefix>) returns (ok: bool)
      requires dev in links
      modifies this`links, this`states
      ensures ok == (Cmd.WgSet(dev, key, allowed) !in faults)
      ensures links == if ok then old(links)[dev := SetAllowedIps(old(links)[dev], key, allowed)] else old(links)
      ensures states == old(states) + [Now()]
    {
      ok := Cmd.WgSet(dev, key, allowed) !in faults;
      if ok {
        links := links[dev := SetAllowedIps(links[dev], key, allowed)];
      }
      states := states + [Now()];
    }

    /** `wg set <dev> peer <key> remove`. */
    method WgRemove(dev: Dev, key: Key)
      requires dev in links
      modifies this`links, this`states
      ensures links == if Cmd.WgRemove(dev, key) in faults then old(links)
                       else old(links)[dev := DropPeer(old(links)[dev], key)]
      ensures states == old(states) + [Now()]
    {
      if Cmd.WgRemove(dev, key) !in faults {
        links := links[dev := DropPeer(links[dev], key)];
      }
      states := states + [Now()];
    }

    /** `ip route add <p> dev <dev>` in the main table, which has at most one route per prefix. */
    method RouteAdd(p: Prefix, dev: Dev) returns (r: Outcome)
      modifies this`main, this`states
      ensures r == if Cmd.RouteAdd(p, dev) in faults then Failed else if p in old(main) then Exists else Done
      ensures main == if r == Done then old(main)[p := dev] else old(main)
      ensures states == old(states) + [Now()]
    {
      r := if Cmd.RouteAdd(p, dev) in faults then Failed else if p in main then Exists else Done;
      if r == Done {
        main := main[p := dev];
      }
      states := states + [Now()];
    }

    method RouteDel(p: Prefix, dev: Dev)
      modifies this`main, this`states
      ensures main == if Cmd.RouteDel(p, dev) !in faults && p in old(main) && old(main)[p] == dev then old(main) - {p}
                      else old(main)
      ensures states == old(states) + [Now()]
    {
      if Cmd.RouteDel(p, dev) !in faults && p in main && main[p] == dev {
        main := main - {p};
      }
      states := states + [Now()];
    }

    /** `ip route add local <p> dev lo`. */
    method LocalAdd(p: Prefix) returns (r: Outcome)
      modifies this`local, this`states
      ensures r == if Cmd.LocalAdd(p) in faults then Failed else if p in old(local) then Exists else Done
      ensures local == if r == Done then old(local) + {p} else old(local)
      ensures states == old(states) + [Now()]
    {
      r := if Cmd.LocalAdd(p) in faults then Failed else if p in local then Exists else Done;
      if r == Done {
        local := local + {p};
      }
      states := states + [Now()];
    }

    method LocalDel(p: Prefix)
      modifies this`local, this`states
      ensures local == if Cmd.LocalDel(p) in faults then old(local) else old(local) - {p}
      ensures states == old(states) + [Now()]
    {
      if Cmd.LocalDel(p) !in faults {
        local := local - {p};
      }
      states := states + [Now()];
    }

    /** `ip route replace default dev <dev> table <table>`. */
    method TableDefault(table: nat, dev: Dev)
      modifies this`tables, this`states
      ensures tables == if Cmd.TableDefault(table, dev) in faults then old(tables) else old(tables)[table := dev]
      ensures states == old(states) + [Now()]
    {
      if Cmd.TableDefault(table, dev) !in faults {
        tables := tables[table := dev];
      }
      states := states + [Now()];
    }

    method TableFlush(table: nat)
      modifies this`tables, this`states
      ensures tables == if Cmd.TableFlush(table) in faults then old(tables) else old(tables) - {table}
      ensures states == old(states) + [Now()]
    {
      if Cmd.TableFlush(table) !in faults {
        tables := tables - {table};
      }
      states := states + [Now()];
    }

    /** `ip rule add`: refused when the very same rule is there, and when the source is no prefix. */
    method RuleAdd(r: IpRule) returns (ok: bool)
      modifies this`rules, this`states
      ensures ok == (Cmd.RuleAdd(r) !in faults && r.from.Prefix? && r !in old(rules))
      ensures rules == if ok then InsertRule(old(rules), r) else old(rules)
      ensures states == old(states) + [Now()]
    {
      ok := Cmd.RuleAdd(r) !in faults && r.from.Prefix? && r !in rules;
      if ok {
        rules := InsertRule(rules, r);
      }
      states := states + [Now()];
    }

    /** `ip rule del`: deletes the first such rule. */
    method RuleDel(r: IpRule) returns (ok: bool)
      modifies this`rules, this`states
      ensures ok == (Cmd.RuleDel(r) !in faults && r in old(rules))
      ensures rules == if ok then RemoveFirst(old(rules), r) else old(rules)
      ensures states == old(states) + [Now()]
    {
      ok := Cmd.RuleDel(r) !in faults && r in rules;
      if ok {
        rules := RemoveFirst(rules, r);
      }
      states := states + [Now()];
    }

    /** `iptables -C`. It fails for a rule that is not there, and like any command it may fail for another
        reason, such as a busy lock; callers cannot tell. */
    method Check(chain: Chain, entry: Rule) returns (present: bool)
      ensures present == (entry in ChainOf(fw, chain) && IptCheck(chain, entry) !in faults)
    {
      present := entry in ChainOf(fw, chain) && IptCheck(chain, entry) !in faults;
    }

    /** `iptables -A`. */
    method Append(chain: Chain, entry: Rule) returns (ok: bool)
      modifies this`fw, this`chains
      ensures ok == (IptAppend(chain, entry) !in faults)
      ensures fw == if ok then WithChain(old(fw), chain, ChainOf(old(fw), chain) + [entry]) else old(fw)
      ensures chains == old(chains) + [fw]
    {
      ok := IptAppend(chain, entry) !in faults;
      if ok {
        fw := WithChain(fw, chain, ChainOf(fw, chain) + [entry]);
      }
      chains := chains + [fw];
    }

    /** `iptables -D`: deletes the first such rule. */
    method Delete(chain: Chain, entry: Rule) returns (ok: bool)
      modifies this`fw, this`chains
      ensures ok == (entry in ChainOf(old(fw), chain) && IptDelete(chain, entry) !in faults)
      ensures fw == if ok then WithChain(old(fw), chain, RemoveFirst(ChainOf(old(fw), chain), entry)) else old(fw)
      ensures chains == old(chains) + [fw]
    {
      ok := entry in ChainOf(fw, chain) && IptDelete(chain, entry) !in faults;
      if ok {
        fw := WithChain(fw, chain, RemoveFirst(ChainOf(fw, chain), entry));
      }
      chains := chains + [fw];
    }
  }
}
