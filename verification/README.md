# A verified model of the jump host's roster-driven router

The gateway reads three directory documents (peers, this site's client devices, the site roster), decides
what its host should look like, and drives a live kernel there: WireGuard peers whose AllowedIPs are taken by
the last claimant, routes, policy rules, ordered iptables chains, addresses, links, and a set of applied LAN
mappings kept in Redis. It does so at boot, on a timer and on demand, and must not interrupt traffic.

`Kernel.dfy` is that host: a class with one method per command the gateway runs. A set `faults` says which
commands fail throughout a pass; it is arbitrary, so a statement made for a set `f` is a statement about every
combination of failing commands, though not about one that fails at one time and works at another. The ghost
fields `states` and `chains` record the network state and the firewall after every command that could change
them, failing ones included, which makes "at every moment of a pass" something to prove. Each imperative
operation of the source is a method that changes the kernel step by step, proved equal to a specification
function of the old state; the lemmas say what those functions mean. `dafny verify dfyconfig.toml` checks
everything.

## What is proved

* **Settling** (`Settling`, `Delivery`). From any state of the host (in which, as WireGuard sees to it, only
  peers hold prefixes) and for any documents, two passes without failing commands reach a state which every
  further one leaves exactly as it is: interface, peers, routes, chains, local routes, remembered mappings,
  exits, rules. Failing commands change nothing then, either, but for three kinds that are named. After the
  first pass already, the mesh interface sends a packet to a peer if and only if the plan means that address
  for that peer; and a device is sent its packets if and only if no other route has its address and no range
  the host claims for itself contains it.
* **From the documents to packets** (`Delivery`, `MeshPlan`, `ExitPlan`, `NetRouter`). The plans are stated in the
  documents' own fields, the rules by what they do to every packet: whose LAN a shadow address reaches, what
  forwarding lets through, which device leaves through which site's gateway.
* **Peers under stealing** (`PeerReconcile`). For any plan and any failures a prefix ends with its last
  accepted claimant; the planned prefixes are held exactly if and only if no two peers list the same one. Routes
  of planned peers survive the removal of peers that used to hold them.
* **LAN mappings** (`NetRouter`, `NetmapReconcile`). One pass completes all wanted mappings if and only if no
  mapping being removed shares its shadow or its LAN with a wanted one (stacked MASQUERADEs aside); two passes
  always do, and what they leave of every rule is counted to the copy. Over every run of calls, with failures,
  every LAN MASQUERADE keeps a NETMAP before it, with which it decides no packet, if and only if each removal of
  the run meets a condition that can be read off the chain and the failing commands before it.
* **Exits** (`ExitPlan`, `ExitRules`, `ExitRouter`, `ExitSteering`, `ExitSettled`). Where the internet traffic of
  any address goes after a pass is stated exactly, whichever exits and rules fail to come up: by rules of smaller
  priority number, then through the chosen exit if the address is steered, and otherwise by the rules outside the
  range alone, down to the main table. It never takes another site's exit, unless a rule outside
  the range leads there.
* **No interruption** (`WgIface`, `PeerReconcile`, `NetmapReconcile`, `MeshState`, `ExitRules`, `ExitRouter`,
  `Reconcile`, `Delivery`). One predicate holds at every moment of every whole pass, for any failures: addresses
  that stay, uncontested prefixes held by their planned peer, routes, local ranges and chain rules but for those
  of what is removed, rules both installed and planned, exits that are up and links in use are all in place. A
  device that is steered to its exit and keeps it leaves through it at every moment. Which prefixes and routes
  do go missing meanwhile is stated exactly; mesh-wide routes are among them when a hub is replaced.
* **Outages** (`DirectoryClient`, `Outage`). A pass that nothing answers goes by the last saved version of each
  document, and leaves a settled host untouched for an outage of any length, with any harmless failures.
* **Serialisation, audit trail, user names** (`Serialised`, `AuditEvent`, `UsernameGrammar`).

## Where the code says something else than its comments

* A policy rule counts as the gateway's by its priority alone (`services/exit_router.js:235-236`), so an
  operator's rule numbered 3000 to 3254 is deleted; the comment at `services/exit_router.js:164-168` says the
  diff spares it: `OperatorRuleInRangeIsDeleted`, `PairsConverge`, `ForeignRulesStay`.
* A LAN mapping that changes is left incomplete by the pass that changes it, until the next one: new mappings are
  applied before old ones are removed, and both removals go by shadow alone and LAN alone (`services/mesh_state.js:254-268`,
  `utils/net_router.js:190-191`): `ChangedLanIsIncompleteAfterOnePass`.
* The MASQUERADE rule that is to "let LAN hosts reach the mesh" (`utils/net_router.js:180-181`) decides no
  packet, because a NETMAP before it does: `LanTrafficIsNeverMasqueraded`. It is left to decide only when it
  cannot be seen or deleted (or has more than 33 copies), the NETMAP can, and no other NETMAP of the LAN stands
  before it: `RemovalKeepsGuardExactly`, `MasqueradeLeftBehind`.
* Re-running a reconcile is said not to stack duplicates because rules are checked first (`utils/net_router.js:12-14`).
  A check that fails for another reason reads as "absent" and the rule is appended again:
  `EnsuringStacksExactly`, `PassesStackExactly`.
* The gateway is to keep routing through a directory outage (`services/directory_client.js:12-16`), but a clients
  document that is neither answered nor readable counts as empty, and the pass removes every device
  (`services/mesh_state.js:316-320`): `DevicesStayExactly`.
* The separate IPv4 test of a target (`utils/username_grammar.js:50`) never decides either.
* A uid can contain `_-_` by the grammar's own pattern (`utils/username_grammar.js:22`), and one ending in `_-` is
  refused when a target follows: `PrintingIsUndoneExactly`, `SeparatorInUidIsMisread`, `HalfSeparatorIsRefused`.
* The client pool contains both shadow /24s (`utils/mesh_addressing.js:41,48`): `SiteLayout`.
* The `peers` number in a pass's result subtracts failures that are not peers
  (`services/mesh_state.js:276`): `ReportedPeersAreThoseUp` says exactly when it is right, and a gateway without
  peers can report minus one: `RefusedMasqueradeMiscounts`.
* The mesh-wide routes are said to belong to the interface and not to any one peer (`utils/wg_iface.js:156-159`),
  yet removing an unplanned hub deletes that of 10.0.0.0/8, until `ensureRoute` puts it back
  (`services/mesh_state.js:227-234`): `RoutesInterruptedExactly`.
* Patching an event with an earlier time can leave it indexed although a newer one was trimmed
  (`models/audit_event.js:39-69`); no caller does it: `WriteKeepsNewestExactly`, `SettingTimeBackHidesNewer`.

Paths in this section are relative to `nodejs/`.

## Model

| member | source | states |
|---|---|---|
| MeshAddressing.SitesAreDisjoint | nodejs/utils/mesh_addressing.js:36-38 | two sites share no address of their /16s and no mesh address; no /16 meets 172.24.0.0/16; every /16 lies in 10.0.0.0/8 |
| MeshAddressing.SiteLayout | nodejs/utils/mesh_addressing.js:39-49 | shadows lie in the client pool, pool and services range in the site's own /16; services and pool are disjoint |
| MeshAddressing.ShadowsAreDisjoint | nodejs/utils/mesh_addressing.js:43-49 | shadows of different sites or slots share no address |
| MeshAddressing.RangesInOctets | nodejs/utils/mesh_addressing.js:36-60 | which dotted addresses lie in a site's range, shadows, client pool and services range, and in the two mesh-wide ranges |
| MeshAddressing.SiteIdsExactly | nodejs/utils/mesh_addressing.js:28-34 | exactly the ids 1 to 254 are let through, unchanged |
| MeshAddressing.NetmapLands | nodejs/utils/net_router.js:152-156 | a rewritten address is inside the target range and keeps its host part |
| MeshAddressing.RoundTripThroughWider | nodejs/utils/net_router.js:152-156 | rewriting out and back is the identity when the range in between is at least as wide |
| MeshAddressing.NoRoundTripThroughNarrower | nodejs/utils/net_router.js:152-156 | through a narrower range some address does not come back |
| MeshAddressing.NetmapIsBijectiveExactlyFor24 | nodejs/utils/net_router.js:149-169 | shadow to LAN and back is the identity iff the LAN is /24 or wider, LAN to shadow and back iff it is /24 or narrower |
| MeshAddressing.MeshAddressNamesOneMachine | nodejs/utils/net_router.js:152-156 | two machines of equally numbered LANs never share a mesh address, across slots and sites |
| MeshAddressing.ShadowMirrorsLan | nodejs/utils/net_router.js:152-156 | 10.s.168.n is 192.168.1.n, and the other way round |
| WgIface.EnsureInterface | nodejs/utils/wg_iface.js:55-79 | the link exists afterwards unless it was not seen and creating it failed; an existing link is left as it is |
| WgIface.SetAddresses | nodejs/utils/wg_iface.js:123-146 | the interface's new addresses for any failures; an address present and wanted is there at every moment |
| WgIface.AddAddresses | nodejs/utils/wg_iface.js:134-140 | every wanted address not shown is added, stopping at the first that cannot be |
| WgIface.DropAddresses | nodejs/utils/wg_iface.js:141-143 | exactly the shown addresses that are not wanted and can be deleted go |
| Settling.AddressesExactly | nodejs/utils/wg_iface.js:114-122 | from any addresses, a call without failures leaves exactly the wanted set |
| WgIface.RoutesAddedMeaning | nodejs/utils/wg_iface.js:200-208 | existing routes stay, new ones are for listed prefixes through the interface; all are routed unless one failed |
| WgIface.SetPeerNoRoutes | nodejs/utils/wg_iface.js:177-183 | the peer holds exactly the listed prefixes, taken from whoever held them; the main table is untouched |
| WgIface.SetPeer | nodejs/utils/wg_iface.js:196-209 | as above, plus a route per prefix, tolerating those that exist; no route is lost at any moment |
| WgIface.AddRoutes | nodejs/utils/wg_iface.js:200-208 | the route loop, stopping at the first failure that is not "File exists" |
| WgIface.ListPeers | nodejs/utils/wg_iface.js:149-153 | every key on the interface once, nothing if it cannot be shown |
| WgIface.RemovePeer | nodejs/utils/wg_iface.js:219-234 | the peer and its prefixes go; of the routes only those of prefixes it still held, and only through this interface |
| WgIface.DeleteRoutes | nodejs/utils/wg_iface.js:231-233 | exactly the listed routes through this interface that can be deleted go |
| WgIface.EnsureRoute | nodejs/utils/wg_iface.js:161-169 | a route of the interface is there afterwards, or an equal prefix was routed already, or the call throws |
| NetRouter.FirstMatchOfConcat | nodejs/utils/net_router.js:59-67 | appending rules changes the fate of exactly the packets nothing before matched |
| NetRouter.EnsureRule | nodejs/utils/net_router.js:59-67 | appends unless an equal rule is seen to be there; `changed` says whether the chains changed |
| NetRouter.EnsuringStacksExactly | nodejs/utils/net_router.js:55-67 | the number of copies afterwards: one more exactly if the rule was absent, or its check failed, and appending works; the other rules keep number and order |
| NetRouter.PassesStackExactly | nodejs/utils/net_router.js:12-14 | over any list of ensured rules no rule goes, and one gets a further copy exactly each time its check fails and its append works |
| NetRouter.RemoveRule | nodejs/utils/net_router.js:69-82 | terminates, removes min(copies, 33) copies or, if its check or deletion fails, none, returns how many; no other rule is missing at any moment |
| NetRouter.RemoveCopiesMeaning | nodejs/utils/net_router.js:69-82 | what is left of the rule, and that all other rules stay in order |
| NetRouter.ApplyNetmap | nodejs/utils/net_router.js:161-183 | three rules and the local route, in order, stopping at a rule that cannot be added but not at the route; nothing is missing at any moment |
| NetRouter.MeshReachesLan | nodejs/utils/net_router.js:166-167 | with a mapping complete, a mesh packet to the shadow is decided, and sent on to the LAN unless another rule gets hold of it |
| NetRouter.LanReachesMesh | nodejs/utils/net_router.js:168-181 | and a LAN packet into the mesh leaves under its shadow address, past the LAN's MASQUERADE |
| NetRouter.AppliedIsComplete | nodejs/utils/net_router.js:161-183 | a call without failures completes its mapping |
| NetRouter.AppliedRewrites | nodejs/utils/net_router.js:166-169 | on chains that do not decide such packets, both are rewritten after a call |
| NetRouter.ClaimLocal | nodejs/utils/net_router.js:171-178 | the range is claimed afterwards unless adding it fails, which is no error |
| NetRouter.AppliedExactly | nodejs/utils/net_router.js:161-183 | the call throws iff one of the three rules is not seen and cannot be added |
| NetRouter.RemoveNetmap | nodejs/utils/net_router.js:185-193 | takes out the three rules and the local route by shadow or LAN alone; no other rule or range is missing at any moment |
| NetRouter.ApplyKeepsGuard | nodejs/utils/net_router.js:161-183 | every LAN MASQUERADE keeps a NETMAP of the same LAN before it, whatever fails, checks included |
| NetRouter.RemovalKeepsGuardExactly | nodejs/utils/net_router.js:185-193 | removal keeps that guard iff what is left (all copies of a rule whose check or deletion fails, else those beyond 33) has a NETMAP of the LAN before any MASQUERADE; from any chain, stacked or not |
| NetRouter.SafeRemovals | nodejs/utils/net_router.js:185-193 | that is so whenever all MASQUERADEs go, and whenever the NETMAP stays |
| NetRouter.LeavesGuardMeaning | nodejs/utils/net_router.js:188-190 | that last condition, read off the chain beforehand, is what holds once the copies are out |
| NetRouter.MasqueradeLeftBehind | nodejs/utils/net_router.js:185-193 | a concrete run that does not meet it, by a failing check or a failing deletion: the MASQUERADE stays alone and decides the LAN's packets into the mesh |
| NetRouter.RunKeepsGuardExactly | nodejs/utils/net_router.js:161-193 | over every run of complete calls with any failures, the guard holds after each call iff each removal meets that condition where it happens |
| NetRouter.LanTrafficIsNeverMasqueraded | nodejs/utils/net_router.js:166-190 | after any such run a packet from a LAN into the mesh is never decided by that MASQUERADE, and by a NETMAP if only the gateway's rules match it |
| NetRouter.ApplyForwarding | nodejs/utils/net_router.js:126-147 | ensures the uplink MASQUERADE and all tunnel rules in order, stopping at one that cannot be added |
| NetRouter.ForwardTunnel | nodejs/utils/net_router.js:135-145 | one tunnel's rules |
| NetRouter.ForwardingPermitsExactly | nodejs/utils/net_router.js:131-145 | of all packets the chains do not decide already, exactly those from a tunnel to the uplink, established ones back, and those between tunnels are accepted, and exactly those leaving by the uplink are masqueraded |
| NetRouter.AllEnsuredMeaning | nodejs/utils/net_router.js:126-147 | no rule is dropped; without failures every listed rule is there |
| NetRouter.AllEnsuredExactly | nodejs/utils/net_router.js:59-67 | ensuring a list throws iff some rule of it is not seen beforehand and cannot be added |
| NetRouter.PresentStayExactly | nodejs/utils/net_router.js:59-67 | ensuring rules that are all there does nothing iff no check fails, and changes nothing if no failing check is followed by an append that works |
| NetRouter.ForwardingIsIdempotentExactly | nodejs/utils/net_router.js:12-14 | a second call does nothing iff it sees the rules that are there |
| NetRouter.ForwardingOpensNothing | nodejs/utils/net_router.js:135-145 | new connections from the uplink meet the same rule as before, for all chains and packets, iff the uplink is not itself a listed tunnel |
| MeshPlan.PlanReconcile | nodejs/services/mesh_state.js:120-200 | the plan: addresses, usable gateways, gateways exiting here, connectable devices, routes, mappings; not ready without a site id, throws on a bad one |
| MeshPlan.PushGateways | nodejs/services/mesh_state.js:132-164 | site peers, then exit clients, each in document order |
| MeshPlan.PushClients | nodejs/services/mesh_state.js:166-180 | devices with a key and an address, each with its /32 only |
| MeshPlan.PushNetmaps | nodejs/services/mesh_state.js:192-197 | one mapping per slot that has a LAN |
| MeshPlan.PlanOutcome | nodejs/services/mesh_state.js:120-125 | no plan without a site id, an exception for one outside 1..254, and a plan for this site otherwise |
| MeshPlan.AddressesInFields | nodejs/services/mesh_state.js:127-130 | the addresses are 172.24.0.s/32 and 10.s.0.1/16, the routes 10.0.0.0/8 and 172.24.0.0/16 |
| MeshPlan.NetmapsInFields | nodejs/services/mesh_state.js:190-197 | 10.s.168.0/24 is mapped to x iff lan168 is x, 10.s.172.0/24 iff lan172 is, and nothing else is mapped |
| MeshPlan.DevicesComeLast | nodejs/services/mesh_state.js:132-180 | gateways, then gateways exiting here, then devices, which so win a dispute over a prefix |
| MeshPlan.GatewaysKeepOrder | nodejs/services/mesh_state.js:132-164 | gateways are planned in the order of their rows |
| MeshPlan.DevicesKeepOrder | nodejs/services/mesh_state.js:166-180 | devices are planned in the order of their rows |
| MeshPlan.PlanMeansWhatItRoutes | nodejs/services/mesh_state.js:12-17 | longest-prefix match routes an address to a peer iff the plan means it: listed address, else site /16, else hub |
| MeshPlan.DevicesOwnOneAddress | nodejs/services/mesh_state.js:166-180 | a device is routed, and may send from, its own address and no other, although the hub holds 10.0.0.0/8 |
| MeshPlan.RoutesToOnePeer | nodejs/services/mesh_state.js:12-17 | no address goes to two peers |
| PeerReconcile.PrefixGoesToLastClaimant | nodejs/services/mesh_state.js:211-222 | for any plan and failures, who holds a prefix after the loop: its last accepted claimant, or the old holder if nothing accepted touches it |
| PeerReconcile.PeersAfterLoop | nodejs/services/mesh_state.js:211-222 | the peers after the first loop are those before and those accepted |
| PeerReconcile.RoutesAfterLoop | nodejs/services/mesh_state.js:211-222 | the first loop loses no route and gives every peer that did not fail its routes |
| PeerReconcile.NewRoutesAreListed | nodejs/services/mesh_state.js:211-222 | it adds none that no peer lists |
| PeerReconcile.PeersConverge | nodejs/services/mesh_state.js:211-232 | from any state and for any refused peers: no unplanned key, every accepted key, and exactly who holds what |
| PeerReconcile.ConvergesExactlyWithoutOverlap | nodejs/services/mesh_state.js:211-232 | exactly the planned peers; exactly the planned prefixes iff no two peers list the same one |
| PeerReconcile.AcceptedPeersHoldTheirOwn | nodejs/services/mesh_state.js:215-221 | one bad peer does not hurt the rest: each accepted peer holds exactly its own prefixes |
| PeerReconcile.RoutesSurviveRemovals | nodejs/services/mesh_state.js:211-234 | planned prefixes and mesh-wide ranges are routed although a removed peer held them; other devices' routes stay |
| PeerReconcile.ClaimedIsNotStale | nodejs/services/mesh_state.js:227-232 | a prefix an accepted peer claims is never held by a key about to be removed |
| PeerReconcile.RoutesLostExactly | nodejs/services/mesh_state.js:227-234 | a route is missing before the mesh-wide routes are ensured iff an unplanned peer held its prefix, no accepted peer claims it, it led into the interface, and the deleting commands work |
| PeerReconcile.PassSettlesPeers | nodejs/services/mesh_state.js:203-232 | an error-free pass settles peers, prefixes and routes from any state, overlapping plans included |
| PeerReconcile.SettledPeersStay | nodejs/services/mesh_state.js:203-232 | on settled peers a pass changes nothing, whichever commands fail, if no prefix is listed twice or no peer is refused |
| PeerReconcile.ApplyPeer | nodejs/services/mesh_state.js:213-222 | one round: the peer's new state; a prefix it takes from its holder really is missing there, every other is held meanwhile |
| PeerReconcile.ApplyPeers | nodejs/services/mesh_state.js:211-222 | the first loop; the failures it notes are exactly the peers whose setup throws |
| PeerReconcile.RemoveUnplanned | nodejs/services/mesh_state.js:227-232 | one round of the second loop |
| PeerReconcile.RemoveStalePeers | nodejs/services/mesh_state.js:224-232 | every key on the interface that is not planned goes, with the routes of what it held |
| PeerReconcile.ReconcilePeers | nodejs/services/mesh_state.js:211-232 | both loops; a prefix its planned peer held is held at every moment iff no accepted peer takes it meanwhile, and a route is there at every moment iff it is not one of the lost ones |
| PeerReconcile.EnsureRoutes | nodejs/services/mesh_state.js:234 | the mesh-wide routes, stopping at one that cannot be added; no route is lost |
| PeerReconcile.RoutesEnsuredExactly | nodejs/utils/wg_iface.js:161-169 | the mesh-wide routes throw iff one is not seen on the device and cannot be added |
| PeerReconcile.PeersFailingExactly | nodejs/services/mesh_state.js:215-221 | a peer is reported as failed iff it is refused or one of its routes cannot be added |
| NetmapReconcile.Tracker.Record | nodejs/services/mesh_state.js:61-65 | the mapping is remembered once, unless Redis fails |
| NetmapReconcile.Tracker.Forget | nodejs/services/mesh_state.js:67-71 | the mapping is no longer remembered, unless Redis fails |
| NetmapReconcile.ApplyMapping | nodejs/services/mesh_state.js:254-262 | a mapping is remembered only if it was applied |
| NetmapReconcile.ApplyMappings | nodejs/services/mesh_state.js:253-262 | the first loop, and the failures it notes |
| NetmapReconcile.RemoveStale | nodejs/services/mesh_state.js:263-274 | every remembered mapping that is not wanted is removed and forgotten |
| NetmapReconcile.ReconcileNetmaps | nodejs/services/mesh_state.js:251-274 | both loops; throws if Redis cannot list; at every moment all chain rules and local ranges but those of mappings being removed are in place |
| NetmapReconcile.CompleteThroughout | nodejs/services/mesh_state.js:251-274 | hence a complete wanted mapping that shares nothing with one being removed is complete at every moment |
| NetmapReconcile.AllAppliedExactly | nodejs/services/mesh_state.js:254-262 | no mapping fails iff every rule of each is seen in its chain beforehand or can be added |
| NetmapReconcile.AppliedCopies | nodejs/utils/net_router.js:161-183 | how many copies of any rule there are after a call, whatever failed in it |
| NetmapReconcile.PassCopies | nodejs/services/mesh_state.js:251-274 | to the copy, what an error-free pass leaves of any rule: one if wanted and absent, then 33 fewer for each stale mapping that has it |
| NetmapReconcile.PassLocal | nodejs/services/mesh_state.js:251-274 | the local ranges it leaves: those there and the wanted ones, without the stale ones |
| NetmapReconcile.CompleteAfterPass | nodejs/services/mesh_state.js:254-268 | from any chains, a wanted mapping is complete after one pass iff no stale one has its shadow, and those with its LAN leave a copy of the MASQUERADE |
| NetmapReconcile.OnePassSufficesExactlyWithoutSharing | nodejs/services/mesh_state.js:254-268 | all wanted mappings are complete after one pass iff none shares a shadow or a LAN with a stale one |
| NetmapReconcile.ChangedLanIsIncompleteAfterOnePass | nodejs/services/mesh_state.js:55-58 | the concrete failing case: a shadow whose LAN changed has lost its local route after one pass |
| NetmapReconcile.TwoPassesConverge | nodejs/services/mesh_state.js:251-274 | from any chains, two passes leave every wanted mapping complete, exactly the wanted set remembered, no stale local range that no wanted one needs, and of any unwanted rule exactly the copies its removals do not reach |
| NetmapReconcile.LeftBehindExactly | nodejs/services/mesh_state.js:263-274 | so an unwanted rule is left iff it had more than 33 copies for each stale mapping with it |
| NetmapReconcile.PassTracks | nodejs/services/mesh_state.js:251-274 | after one pass exactly the wanted mappings are remembered, whatever is in the chains |
| NetmapReconcile.RememberedExactly | nodejs/services/mesh_state.js:254-262 | whatever fails, a mapping is remembered after the first loop iff it was, or is wanted, its rules can be ensured and Redis takes it |
| NetmapReconcile.RememberedArePresent | nodejs/services/mesh_state.js:254-262 | whatever fails, a newly remembered mapping has its rules in the chains, unless there is no iptables |
| NetmapReconcile.ForgottenExactly | nodejs/services/mesh_state.js:263-274 | whatever fails, a remembered mapping is forgotten iff it is not wanted and Redis works, even if its rules stay |
| NetmapReconcile.RemovalTakes33 | nodejs/utils/net_router.js:69-82 | one removal takes out 33 copies at the most |
| NetmapReconcile.PassLeavesForward | nodejs/services/mesh_state.js:251-274 | mappings are no matter for the FORWARD chain |
| NetmapReconcile.SettledNetmapsStayExactly | nodejs/services/mesh_state.js:251-274 | once complete and remembered, a pass does nothing iff its checks work, and changes nothing unless a failing check is followed by an append that works |
| MeshState.ReadyLink | nodejs/services/mesh_state.js:207-209 | interface, key and addresses, with nothing in place interrupted |
| MeshState.ReadyExactly | nodejs/services/mesh_state.js:207-209 | a pass gets past the interface iff link, key, each wanted address and bringing it up work |
| MeshState.RaisePeers | nodejs/services/mesh_state.js:211-234 | peers and mesh-wide routes, with nothing in place interrupted |
| MeshState.RaiseMesh | nodejs/services/mesh_state.js:206-234 | both, or the exception on the way |
| MeshState.ApplyNat | nodejs/services/mesh_state.js:236-274 | forwarding and mappings; a forwarding failure is noted and does not stop the mappings |
| MeshState.DetectWan | nodejs/utils/net_router.js:200-206 | the device of the default route, if it can be seen |
| MeshState.ApplyNatSteadily | nodejs/services/mesh_state.js:236-274 | forwarding and mappings, with what was in place before the pass still in place at every moment |
| MeshState.ApplyPlan | nodejs/services/mesh_state.js:206-277 | the whole new host state and result for any failures; at every moment and at the end only routes of stale peers and what belongs to unwanted mappings is missing, each such route really is at some moment, and exits and rules are untouched |
| MeshState.RoutesInterruptedExactly | nodejs/services/mesh_state.js:224-234 | which routes of before these are, read off the host before the pass: a mesh-wide one iff an unplanned peer holds it and no accepted one claims it |
| MeshState.ReplacedHubInterruptsItsRoute | nodejs/services/mesh_state.js:224-234 | a concrete host of that kind: the hub's key is no longer planned |
| MeshState.NeededRoutesAreNotInterrupted | nodejs/services/mesh_state.js:224-234 | a route an accepted peer needs is not among them |
| MeshState.NatFailsExactly | nodejs/services/mesh_state.js:240-262 | forwarding and mappings all work iff every rule they ask for is seen in its chain before the pass or can be added |
| MeshState.MappingsComeRegardless | nodejs/services/mesh_state.js:240-262 | a failure of forwarding keeps no mapping from being applied and remembered |
| MeshState.ReportedPeersAreThoseUp | nodejs/services/mesh_state.js:276 | the reported number is that of the peers set up iff this is so |
| MeshState.RefusedMasqueradeMiscounts | nodejs/services/mesh_state.js:276 | a concrete pass that reports minus one: no peers, and the uplink MASQUERADE refused |
| ExitPlan.RowMeaning | nodejs/services/exit_router.js:73 | a site's row is found iff the roster has one, and is one with its id |
| ExitPlan.Choose | nodejs/services/exit_router.js:79-99 | no exit, local exit, refused for the first applicable reason, or through a usable site |
| ExitPlan.ThroughExactly | nodejs/services/exit_router.js:79-99 | through a site iff the device asks for it, it is not this one, and its last row has key and endpoint |
| ExitPlan.RefusedExactly | nodejs/services/exit_router.js:87-99 | refused iff it asks for another site with which that is the first thing wrong |
| ExitPlan.PlanExits | nodejs/services/exit_router.js:72-124 | exits, rules and reports in the order of the devices |
| ExitPlan.RowOfIsLast | nodejs/services/exit_router.js:73 | of rows with one id the last counts |
| ExitPlan.RulesInFields | nodejs/services/exit_router.js:78-120 | a rule is planned iff a device asks for another site whose last row has key and endpoint: from its address, to table 2400 + id, with priority 3000 + id |
| ExitPlan.NoRuleIntoOwnSite | nodejs/services/exit_router.js:83-85 | no rule leads into this site's own table |
| ExitPlan.ReportsInFields | nodejs/services/exit_router.js:87-99 | a device is reported iff it asks for another site without a row, without a key, or without an endpoint, the first of these being the reason |
| ExitPlan.ExitsInFields | nodejs/services/exit_router.js:101-114 | an exit is planned iff some device asks for its site so, with interface, table, key, endpoint, default routes and keepalive 25 |
| ExitPlan.ChoicesKeepOrder | nodejs/services/exit_router.js:78-123 | rules and reports come in the order of the devices, exits in the order they are first chosen |
| ExitPlan.EveryDeviceIsAccountedFor | nodejs/services/exit_router.js:78-121 | devices = those without exit + local exits + reports + rules |
| ExitPlan.RulesFollowChoices | nodejs/services/exit_router.js:87-120 | a rule is planned exactly for a device with a usable exit, a report exactly for a refused one |
| ExitPlan.ExitsFollowChoices | nodejs/services/exit_router.js:101-114 | exits are distinct, have their site's own interface and table, and every chosen site has one |
| ExitPlan.ExitsAreTheChosen | nodejs/services/exit_router.js:101-114 | an exit is planned iff some device chose it, with that site's key; no site has two |
| ExitPlan.RulesAreTheChosen | nodejs/services/exit_router.js:41-47 | every rule's table is that of a planned exit; tables and interfaces tell exits apart |
| ExitRules.ReadBackInvertsShow | nodejs/services/exit_router.js:237-241 | what is read back is what was asked for, /32 or not |
| ExitRules.ListManagedRules | nodejs/services/exit_router.js:228-245 | the rules in the priority range, in order, in normal form; nothing if they cannot be shown |
| ExitRules.ReconcileRules | nodejs/services/exit_router.js:162-188 | the new rules for any failures; at every moment a rule installed and planned is there, and every rule there was installed or is planned; no command is issued at all iff installed and planned pairs agree |
| ExitRules.DeleteStale | nodejs/services/exit_router.js:172-181 | the first loop, with its moments |
| ExitRules.AddMissing | nodejs/services/exit_router.js:183-188 | the second loop, with its moments |
| ExitRules.DeletionIsFiltering | nodejs/services/exit_router.js:172-181 | deleting one by one by value removes exactly the stale rules, duplicates included, and keeps the rest in order |
| ExitRules.ReconciledMembers | nodejs/services/exit_router.js:162-188 | which rules there are afterwards, for any failing commands, listing included |
| ExitRules.ForeignRulesStay | nodejs/services/exit_router.js:235-236 | rules outside 3000..3254 are unchanged and in order, whatever fails |
| ExitRules.OwnsExactlyItsRange | nodejs/services/exit_router.js:235-236 | for every rule with priority below 3000 or above 3254: it is there afterwards iff it was before, in the same order, whatever fails; within, what is not planned goes when the commands work |
| ExitRules.PairsConverge | nodejs/services/exit_router.js:162-188 | from any rules, the managed (from, table) pairs are the planned ones |
| ExitRules.OperatorRuleInRangeIsDeleted | nodejs/services/exit_router.js:235-236 | an operator's rule of priority 3100 is deleted |
| ExitRules.NextPassIssuesNothing | nodejs/services/exit_router.js:162-188 | the next pass finds the pairs agreeing |
| ExitRules.PassSettlesRules | nodejs/services/exit_router.js:162-188 | an error-free diff leaves nothing to do, malformed sources included |
| ExitRules.SettledRulesStayExactly | nodejs/services/exit_router.js:169-188 | then the diff changes nothing, whatever fails, iff the rules can be read back or none would be added anew |
| ExitRouter.RaiseExit | nodejs/services/exit_router.js:137-160 | one exit's link, peer and table, or where it stopped; nothing else changes, and an exit that was up is up at every moment |
| ExitRouter.SetUpLink | nodejs/services/exit_router.js:140-152 | key, addresses and the one peer, which keeps the prefixes it held |
| ExitRouter.RaiseExits | nodejs/services/exit_router.js:134-160 | all exits; the failures noted are exactly those that threw; planned exits that were up are up at every moment |
| ExitRouter.ExitsFailingExactly | nodejs/services/exit_router.js:137-160 | an interface is reported as failed iff one of its own needed commands fails; a failing route command is not reported |
| ExitRouter.ListAbandoned | nodejs/services/exit_router.js:51-61 | exactly the exit interfaces on the box that no planned exit uses |
| ExitRouter.DropExit | nodejs/services/exit_router.js:192-197 | the table and the link of one exit go, with routes through it, and nothing else at any moment |
| ExitRouter.DropAbandoned | nodejs/services/exit_router.js:190-197 | all abandoned exits go; nothing of another interface, and no planned exit that was up, is missing at any moment |
| ExitRouter.AbandonedGoExactly | nodejs/services/exit_router.js:190-197 | after the pass an abandoned exit's link is gone iff links can be shown and it can be deleted, and its table is empty if it can be flushed |
| ExitRouter.ApplyExits | nodejs/services/exit_router.js:133-200 | the whole new network state for any failures; at every moment other interfaces, routes and local ranges are as before, planned exits that were up are up, planned rules are in place, and a link is missing only after the rules are reconciled |
| ExitRouter.PlannedStay | nodejs/services/exit_router.js:162-182 | a rule installed and planned survives the diff, whatever fails |
| ExitSteering.AppliedKeepsOrder | nodejs/utils/wg_iface.js:171-176 | the main table gains no route, exit tables lead through their own interface only, rules stay sorted, whatever fails |
| ExitSteering.PlannedAreManaged | nodejs/services/exit_router.js:115-120 | with roster ids in 1..254 every planned rule lies in the range |
| ExitSteering.LookupBefore | nodejs/services/exit_router.js:42-44 | the deciding rule's priority number is no greater than that of any rule that would do |
| ExitSteering.MatchingRulesArePlannedExactly | nodejs/services/exit_router.js:172-181 | after the diff only planned rules of the range match an address iff those in the way can be seen and deleted |
| ExitSteering.MatchingRuleIsOwn | nodejs/services/exit_router.js:129-132 | then a managed rule that matches a device leads to the site it chose |
| ExitSteering.SteeringIsExact | nodejs/services/exit_router.js:126-132 | whatever fails to come up, where the internet traffic of an address goes: early rules first, then the chosen exit if it is steered, and otherwise what the rules outside the range alone decide |
| ExitSteering.FallsThrough | nodejs/services/exit_router.js:83-99 | a device without a usable exit, or whose exit has no route, or whose rule could not be added, goes as the rules outside the range alone would have it |
| ExitSteering.FallsThroughToMain | nodejs/services/exit_router.js:83-85 | such a device takes the main table's default route as it was before, when the main table's rule is the first of those that would do |
| ExitSteering.NeverThroughAnotherSite | nodejs/services/exit_router.js:126-132 | a device takes its chosen exit or goes as the rules outside the range alone would have it |
| ExitSteering.OnlyTheChosenExit | nodejs/services/exit_router.js:126-132 | if no outside rule leads into an exit, the only exit a device can take is the one it chose |
| ExitSteering.RaisedExitIsUp | nodejs/services/exit_router.js:137-155 | an exit whose commands work has its table, interface and default route owned by its site, whatever happens to the others |
| ExitSteering.ReachesItsExit | nodejs/services/exit_router.js:23-32 | a device whose exit came up and whose rule is installed or can be leaves through it, to that site's key |
| ExitSteering.ExitAsAsked | nodejs/services/exit_router.js:78-120 | the same over the documents' own fields: whoever asks for another site with key and endpoint leaves through its interface, to the key of its last row |
| ExitSteering.GoesAsTheHost | nodejs/services/exit_router.js:79-99 | everyone else goes as the rules below 3000 and above 3254 alone have it |
| ExitSteering.FailedExitKeepsTable | nodejs/services/exit_router.js:153-159 | the table of an exit that does not come up is left as it was |
| ExitSettled.NoRuleSelectsAMissingExit | nodejs/services/exit_router.js:190-197 | at every moment of a pass at which an exit link is gone, no managed rule selects its table iff those that did could be seen and deleted |
| ExitSettled.PassSettlesExits | nodejs/services/exit_router.js:126-132 | an error-free pass leaves every planned exit in place and no other |
| ExitSettled.SettledExitsStayExactly | nodejs/services/exit_router.js:126-132 | then a pass changes nothing, whatever fails, iff the rules can be read back or none would be added anew |
| DirectoryClient.CacheEntry.FetchWithCache | nodejs/services/directory_client.js:92-103 | an answer is returned as fresh, with its time; else the cached one marked stale, else nothing, and the cache stays; a failing cache write does not fail the fetch |
| DirectoryClient.CacheHoldsLastGood | nodejs/services/directory_client.js:12-16 | after any run of attempts the cache holds the last version both fetched and saved |
| DirectoryClient.OutageServesLastGood | nodejs/services/directory_client.js:85-103 | without an answer that version is served, marked stale; nothing is served only if none was saved or Redis cannot be read |
| Reconcile.FindSite | nodejs/services/mesh_state.js:318 | the first roster row with this site's id |
| Reconcile.SiteRowMeaning | nodejs/services/mesh_state.js:318 | one is found iff some row has the id, and it is the one before which no row has it |
| Reconcile.ConfigureHost | nodejs/services/mesh_state.js:318-341 | plan, mesh, then exits; a pass that is not ready or throws does not go on; at every moment nothing that was in place and is planned is missing |
| Reconcile.ApplyBoth | nodejs/services/mesh_state.js:326-341 | mesh, then exits unless that threw, with that statement for every moment of both |
| Reconcile.ReconcileMesh | nodejs/services/mesh_state.js:287-342 | host, result and caches after a pass depend on the documents served alone; without a peers document the host is untouched and the others are not fetched; that statement for every moment of the pass |
| Reconcile.NeededRoutesAreUnbroken | nodejs/services/mesh_state.js:224-234 | a route an accepted peer needs is there at every moment of a whole pass |
| Settling.MeshPassPutsInPlace | nodejs/services/mesh_state.js:202-234 | from any state, addresses, peers, prefixes and routes are in place after one pass |
| Settling.MeshInPlaceStays | nodejs/services/mesh_state.js:202-234 | then a pass changes none of them, whichever commands fail, if no prefix is listed twice or no peer is refused |
| Settling.NatInPlaceStays | nodejs/services/mesh_state.js:236-274 | the same for forwarding and mappings, if nothing is stacked |
| Settling.NatPassRemembers | nodejs/services/mesh_state.js:251-274 | from any state, one pass remembers exactly the wanted mappings |
| Settling.NatPassPutsInPlace | nodejs/services/mesh_state.js:236-274 | then the next pass leaves forwarding and all mappings complete |
| Settling.ExitsLeaveMesh | nodejs/services/mesh_state.js:328-333 | applying exits changes nothing of the mesh interface, and nothing of the main table once no exit is abandoned |
| Settling.FirstPass | nodejs/services/mesh_state.js:287-342 | what one error-free pass achieves from any state |
| Settling.SecondPass | nodejs/services/mesh_state.js:287-342 | the second one leaves mesh, firewall, mappings and exits settled |
| Settling.SettledStays | nodejs/services/mesh_state.js:202-205 | on a settled host a pass changes nothing, whichever harmless commands fail |
| Settling.SettledHostStays | nodejs/services/mesh_state.js:202-205 | the same in terms of the documents |
| Settling.TwoPassesSettle | nodejs/services/mesh_state.js:202-205 | from any host state and any documents, two error-free passes settle the host, and a third changes nothing |
| Delivery.PlansComeFromRows | nodejs/services/mesh_state.js:132-180 | a peer is planned exactly for each usable row; only gateways with a published endpoint are dialled and kept alive |
| Delivery.PeersInFields | nodejs/services/mesh_state.js:132-180 | the planned peers in the rows' own fields: which rows count, with key, endpoint, prefixes and keepalive |
| Delivery.ShapedDocsMakeShapedPlans | nodejs/services/mesh_state.js:12-17 | documents as the directory hands them out make a plan of the shape longest-prefix match relies on |
| Delivery.PassHoldsThePlan | nodejs/services/mesh_state.js:206-234 | after an error-free pass from any state the mesh interface holds exactly the planned peers and prefixes |
| Delivery.PassDeliversAsMeant | nodejs/services/mesh_state.js:12-17 | then a packet goes to, and is accepted from, a peer iff the plan means that address for it |
| Delivery.DevicesGetTheirOwnPackets | nodejs/services/mesh_state.js:166-180 | then every connectable device of the clients document has its own address and no other on the interface |
| Delivery.MainAfterRaising | nodejs/services/mesh_state.js:206-234 | the main table after the mesh is up: what was there and is not lost, what is listed, the mesh-wide routes; a route that was there leads where it led |
| Delivery.OwnRouteExactly | nodejs/utils/wg_iface.js:200-208 | after a pass a planned prefix is routed into the mesh iff it was routed nowhere else before |
| Delivery.LocalAfterPass | nodejs/services/mesh_state.js:251-274 | which ranges the host claims for itself after a pass, read off the host before |
| Delivery.DevicesAreReachedExactly | nodejs/services/mesh_state.js:166-188 | a device's packets go into the interface and to it iff no other route has its very address and no range claimed then contains it |
| Delivery.LanHostsAreReached | nodejs/services/mesh_state.js:190-197 | from any host state, after two passes a mesh packet to 10.s.168.n or 10.s.172.n is sent on to the LAN that the first roster row of this very site names |
| Delivery.InternetIsReachedExactly | nodejs/services/mesh_state.js:236-250 | after a pass on a host with an uplink, of undecided forwarded packets exactly those from the mesh to the uplink and answers back are accepted |
| Delivery.DevicesExitAsAsked | nodejs/services/mesh_state.js:328-333 | after a whole pass a device that asks for another site with key and endpoint leaves through it |
| Delivery.OtherDevicesGoAsTheHost | nodejs/services/mesh_state.js:328-333 | and every other device goes as the host's own rules have it |
| Delivery.SteeredThroughout | nodejs/services/exit_router.js:162-168 | a device steered to its exit that keeps it leaves through it, to that site's gateway, at every moment of a whole pass, whatever fails |
| Outage.CacheAfterRun | nodejs/services/mesh_state.js:311-317 | over any run the three caches are those of the attempts made, the latter two only by passes that have a peers document |
| Outage.OutageGoesByLastGood | nodejs/services/directory_client.js:85-103 | after any run, a pass nothing answers goes by the last saved version of each document, and lacks one iff it was never saved or cannot be read |
| Outage.DevicesStayExactly | nodejs/services/mesh_state.js:316-320 | in a pass without an answer for the clients, a device of the saved document stays on the interface iff that document can be read |
| Outage.NothingKnownNothingTouched | nodejs/services/mesh_state.js:311-315 | as long as no peers document was ever had, no pass touches the host, whatever fails |
| Outage.OutageOfSettledHost | nodejs/services/mesh_state.js:282-285 | an outage of any length, with any harmless failures, leaves a settled host as it is |
| Outage.OutageGoesUnnoticed | nodejs/services/mesh_state.js:282-285 | from any state: two good passes, then such an outage of any length, and the host is as the second pass left it |
| Serialised.Reconciler.RunReconcile | nodejs/services/mesh_state.js:361-368 | the running pass's promise, or a new pass's |
| Serialised.Reconciler.Settle | nodejs/services/mesh_state.js:366 | the running pass ends, well or badly, and stays in flight until its handler has run |
| Serialised.Reconciler.Finally | nodejs/services/mesh_state.js:366 | the handler clears `inFlight` on success and on failure |
| Serialised.AlwaysOneAtATime | nodejs/services/mesh_state.js:354-368 | over every order of events only the last pass can be unfinished, and it is the one in flight |
| Serialised.RequestsShareTheRunningPass | nodejs/services/mesh_state.js:354-368 | no two passes run at once; a request during a pass gets that pass and starts none; no request gets a finished pass |
| Serialised.NextRequestStartsAfresh | nodejs/services/mesh_state.js:361-368 | after a pass succeeded or failed the next request starts a new one |
| AuditEvent.Create | nodejs/models/audit_event.js:18-54 | the new event, with any of its fields given, is written and handed out |
| AuditEvent.Handle.Patch | nodejs/models/audit_event.js:39-42 | the event changes in place, in any of its fields, and is written again |
| AuditEvent.Handle.Finish | nodejs/models/audit_event.js:43-52 | the same, with end and duration, which counts from the start known before the update |
| AuditEvent.AuditLog.Write | nodejs/models/audit_event.js:56-70 | hash and index after a write and trim |
| AuditEvent.UpdatedFields | nodejs/models/audit_event.js:39-42 | an update changes the fields it gives, and no other |
| AuditEvent.CreatedFields | nodejs/models/audit_event.js:18-30 | a new event has its id, the present time as time and start, no end, and the given fields |
| AuditEvent.FinishedFields | nodejs/models/audit_event.js:43-47 | finishing records the end and the time since the start known before, over whatever the update says of them |
| AuditEvent.PatchIsStored | nodejs/models/audit_event.js:39-70 | what the last patch gives is what the trail says of the event, as long as it keeps it |
| AuditEvent.ZAddMeaning | nodejs/models/audit_event.js:59 | the index stays ordered with every id once; only this id's entry changes |
| AuditEvent.WriteKeepsTidy | nodejs/models/audit_event.js:56-70 | whatever is written, index in order and within the cap, and hashes for exactly the indexed events |
| AuditEvent.WriteKeepsNewest | nodejs/models/audit_event.js:60-69 | a write keeps the index the newest N of everything, also after the cap was lowered, unless it moves an indexed event behind a trimmed one |
| AuditEvent.WriteKeepsNewestExactly | nodejs/models/audit_event.js:56-70 | with an unchanged cap, if and only if; new events, trimmed ones and unchanged times always do |
| AuditEvent.SettingTimeBackHidesNewer | nodejs/models/audit_event.js:39-42 | a concrete patch that does not |
| AuditEvent.RunIsFaithful | nodejs/models/audit_event.js:18-70 | from any faithful log, after any run of create, patch and finish that leaves ids and times alone: the newest N events of all created, each exactly as its handle has it |
| AuditEvent.TrailIsTheNewest | nodejs/models/audit_event.js:3-6 | the same from the empty log |
| AuditEvent.RunIsTidy | nodejs/models/audit_event.js:18-70 | after any run at all, index and hashes are in order, within the cap and in step |
| AuditEvent.PatchingATrimmedEventIsLost | nodejs/models/audit_event.js:39-70 | writing an event that was trimmed before leaves index and hashes as they were |
| UsernameGrammar.FindSepMeaning | nodejs/utils/username_grammar.js:40 | the first separator from a position on, or none |
| UsernameGrammar.ParsingIsUndoneByPrinting | nodejs/utils/username_grammar.js:35-55 | an accepted name is uid, separator and target put together, both valid, the uid free of separators |
| UsernameGrammar.PrintingIsUndoneExactly | nodejs/utils/username_grammar.js:35-55 | for valid parts, parsing the printed form returns them iff the uid has no `_-_` and, with a target, does not end in `_-` |
| UsernameGrammar.SeparatorInUidIsMisread | nodejs/utils/username_grammar.js:40-47 | the valid uid `a_-_b` is taken for user `a` and target `b` |
| UsernameGrammar.HalfSeparatorIsRefused | nodejs/utils/username_grammar.js:40-52 | a login whose uid ends in half a separator is refused, never misdirected |
| UsernameGrammar.Ipv4IsATargetName | nodejs/utils/username_grammar.js:24-33 | every IPv4 address already matches the target pattern |
| UsernameGrammar.GrammarBoundaries | nodejs/utils/username_grammar.js:21-27 | where the grammar draws its lines: first characters, lengths 32 and 128, numbers up to 255 |
| UsernameGrammar.Ipv4Exactly | nodejs/utils/username_grammar.js:27-33 | an IPv4 address is four such numbers with dots between them |

## Left out

- Ipv4: prefixes, interface names, keys and rule sources are values, not text, so the parsing and printing of command output is modelled only for the /32 of a rule source; IPv6 is `::/0` alone.
- Kernel: one route per prefix and table, no metrics, no routes that come with an address, and rules select by source only (no `iif`, `fwmark` or `to` in the managed range). A failing `iptables -C` reads as "absent", never the other way round.
- Kernel: a command fails throughout a pass or not at all, and a failing command has no partial effect; error texts are reduced to "File exists" and anything else.
- WgIface.EnsureInterface: the userspace `wireguard-go` fallback, its wait and the kernel probe count as creating the link; key files, listen ports, endpoints and keepalives do not change the modelled state.
- NetRouter.EnsureRule: `-I` instead of `-A` is not modelled, since nothing on this path asks for it.
- NetRouter.ApplyForwarding: the `changed` and `removed` counters of forwarding and NETMAP calls, sysctls, resolver detection and the NETMAP probe.
- NetmapReconcile.OnePassSufficesExactlyWithoutSharing: for MASQUERADEs of mappings being removed in at most 33 copies; CompleteAfterPass states the general case.
- NetmapReconcile.Tracker.Record: Redis writes happen in order although the source does not await them; a crash between applying a mapping and recording it is not modelled.
- MeshPlan.PlanMeansWhatItRoutes: for plans of the directory's shape, with no prefix and no key given to two peers; an address of this site that no device has goes to the hub.
- PeerReconcile.RoutesSurviveRemovals: planned routes are installed, not the only ones, because the source leaves old routes when a peer's list shrinks.
- Delivery.DevicesAreReachedExactly: for a device whose address has no route into an exit; the gateway's own interface addresses and policy rules are not consulted.
- Settling.TwoPassesSettle: asks of the start only what WireGuard itself guarantees, that a prefix's holder is a peer.
- ExitPlan.PlanExits: exit and site ids are numbers; an id given as text, and one that is not a number, are not modelled.
- ExitRouter.ApplyExits: for plans with one exit per site, on that site's own interface and table, as planExits makes them; its list of failed rule commands is left out, only failed interfaces are reported.
- ExitSteering.NeverThroughAnotherSite: roster ids lie in 1..254, devices with one address chose alike, the rules are sorted, exit tables were not repointed by hand, and the rules of the range that match the address and are not planned can be deleted. SteeringIsExact and ReachesItsExit need the same.
- Reconcile.ReconcileMesh: publishing this gateway's facts, its key pairs, HTTP, tokens and timeouts, JSON null documents, log lines and the returned labels.
- Serialised.Reconciler.RunReconcile: timers are requests; starting and stopping the interval only decides which requests happen.
- AuditEvent.AuditLog.Write: is atomic; interleaved writes, which may trim too much, are not modelled. Ids and times are numbers, the cap is at least 1 for the newest-N results; listing, filtering and serialising events are left out.
- The managed-rule cleanup that the diff replaced (`clearManagedRules`), live status for the UI, SSH bridging, the terminal picker, login, tokens, LDAP, web routes, installers and metrics.
