# A verified model of the hub's control plane

The hub keeps a relational state (nodes, clients, grants, grant rules, exits, site links) and
compiles it into five artefacts that must agree: an ordered packet filter with default drop, a
cryptokey table, the AllowedIPs of every client and of every node, and policy routes into
per-node tunnels. A reconcile loop drives the kernel to that compilation. On the nodes, an agent
applies pushed configs, and shell command lists bring the tunnel up and down. This project models
that system and proves properties that span those parts.

## How the model is built

- **Values and objects.** Entities that the program treats as values are datatypes. What it
  updates in place is a class: `Store.Store` (the database behind transactions), `Kernel.Host`
  (the kernel behind `ip` commands), `Service.Service`, `Agent.NodeAgent`, `Resolver.DnsRouter`.
  Loops of the program are loops here, proved against specification functions, and the lemmas
  then say what those functions mean.
- **Artefacts are syntax trees with an evaluator**, not text. The forward chain is evaluated on
  packets (source, destination, protocol, port, outgoing interface, new or established). Prefixes
  are those of RFC 4632, and the cryptokey table is looked up by longest match (section 5.1 of
  RFC 4632).
- **The kernel is a class whose commands may fail.** A host with `faulty` set may refuse any
  command at any time, which is also how a run cut off in the middle is covered. A host without
  it refuses a command only for a reason: a duplicate rule, a route through a link that does not
  exist or is down (`ENETDOWN`), a link that exists already. Deleting a link deletes its routes.
- **Row order.** Queries without an ORDER BY return rows in the order of an arbitrary
  `RowOrder`; every theorem holds for all of them.
- **Reading is separate statements.** `Queries` has the answer of each statement that a reconcile
  runs, and puts a snapshot together from whatever answers came back; `Rendering` says what a pass
  puts in force as a function of those answers. Read without interruption they give the snapshot
  of the database (`Queries.AssembledIsSnapshot`).
- **Runs.** `Invariant.IsRun` is a sequence of serial transactions, each atomic and each committing
  or leaving no trace. `AllocProtocol` and `Handlers` interleave at the level of statements: in
  `Handlers` a pass may read each table from another database, and what it then applies is the
  rendering of that mixture.
- **Requests.** `Changes` says what each change to the database does on the caller's own values, and
  `Journeys` and `NameService` follow a request through several operations and renderers to the peer,
  the config or the answer it leads to.
- **Shell text.** The node scripts are lines with an effect on chains. `HookText` prints them as
  words, because the replay hook rewrites text, and shows that its rewrite asks the right question.
  `HostFirewall` reads the words back as iptables does, and evaluates a node's chains first match
  first among arbitrary rules of the host's own.

## Premises

The program does not enforce these. The first group are named predicates or explicit `requires`.

- The LANs of different real nodes are disjoint from each other and from the pool
  (`Delivery.LansApart`).
- No foreign route of the hub's main table is more specific than a node's LAN or than the pool
  (`Delivery.NoForeignRouteInside`).
- The tunnel interface is not named like an exit device, and if it is up when a pass starts it has
  the pool route its own address made (`Service.Prepared`, which every pass keeps). For a reply out
  of an exit, the hub's address lies in the pool.
- Where it is said that an exit ends at the client's own node, its device leads there when the pass
  begins, or does not exist and no exit node of lower address has the same device name
  (`Delivery.WillLeadHome`). Where it is said that runs keep devices in agreement with their names
  (`Stabilise.Agrees`), the pool is a /16 or smaller. This is not a convenience: names are injective
  over the pool exactly from /16 on (`ExitPlan.NamesInjectiveIff`).

The others are in the shape of the model.

- Every stored prefix is IPv4 and masked (the `cidr` type of the database sees to the mask).
- Each database transaction is one atomic step, except in `AllocProtocol`, where the lock is
  explicit. Generated keys, tokens and row ids are new.
- `HUB_WAN_IFACE` is not empty: the chain has the form that names it. On the hub no policy rule
  outside preferences 5090 and 5100 gets in the way: route lookup walks those two and the main table.
- The hub runs its resolver, so the NAT table sends no client elsewhere for names.
- awg-quick aborts bring-up at the first command that fails and is not tolerated, and gives the
  interface an address whose prefix the main table then reaches through it.
- iptables reads a printed prefix back as the same prefix, and interface names are words. The host's own
  mangle rules leave packet marks alone.
- Domain names are ASCII text.

The premises are consistent. `Sample` describes an installation of two linked sites and a client that
exits through one of them, in force, and `Sample.SampleClientDelivers`, `Sample.SampleLinkDelivers` and
`Sample.SampleExitDelivers` apply the three delivery theorems to packets in it.

## What turned out not to hold

Each of these is proved. Where there is a condition under which the code does meet the property, the
lemma named gives it, and it is exact.

- **Exit routing does not always stabilise.** A run cut off between creating a device and bringing
  it up leaves a device that no later run repairs as long as the plan names it: every such run
  fails, and none ends in its plan (`Stabilise.CutOffAfterLinkAdd`, `Stabilise.DownDeviceStaysDown`,
  `Stabilise.DownDeviceIsNeverPlan`). A complete run succeeds exactly when no planned device was left
  down and no rule is asked for twice (`Apply.Feasible`). Planning once without the device repairs it:
  after that a plan is feasible exactly when it repeats no rule (`Stabilise.ReplanningRepairs`).
- **In a pool wider than a /16 an exit can lead to the wrong node.** Two exit nodes whose addresses end
  in the same two bytes share a device, and it stays with the node it was first created for as long as
  either is planned (`Stabilise.DeviceKeepsItsNode`). After a pass the device of an exit client leads to
  its own node exactly when it did so before, or is new and the node is the lowest of the name
  (`Stabilise.DeviceLeadsIff`, `Delivery.ExitDeviceLeadsHome`). `WidePool.LowExitIsLedHigh` runs two
  passes, all of whose commands succeed, after which a client of 10.0.0.2 leaves through 10.1.0.2.
- **A handler can leave its change out of force.** Two handlers have several statements and return on
  a later error without reconciling. A client update that moves the enabled switch and carries a
  malformed colour commits the switch and stops: the client stays connected
  (`Staleness.PatchClientConsistentIff`). A node update that fails on its domains or its colour leaves
  the resolver stale exactly when the map in force is no route map of the new rows
  (`Staleness.PatchNodeConsistentIff`); for a node that is the only server of its domains, exactly when
  it changes what the node offers (`Staleness.PatchNodeAloneIff`; `Staleness.FirstServerIsLost` is an
  instance).
- **Re-announcing a node is not reconciled**, which leaves the running configuration stale exactly
  when the node is visible and announces other subnets (`Staleness.ReannounceConsistentIff`).
- **The domain map depends on the order of rows**, which no ORDER BY fixes, exactly when two active
  nodes serve one domain with different servers (`Queries.RoutesAreFixedIff`,
  `Queries.SharedDomainDepends`).
- **The rules of a hub exit bind the client's configuration and not the filter.** The filter lets
  such a client out to anywhere, its AllowedIPs hold only the rules' destinations
  (`Delivery.ClientConfigCovers`, `Delivery.HubRuleNarrowsTheClientOnly`).
- **The panel reports every failed token lookup as an unknown token**, and the agent tears its
  tunnel down on that answer; so it does so for deletion and for a failed query, and for nothing
  else (`Enrolment.UnknownIffDeleted`). A deletion between the lookup and the export is the one case in
  which the poll fails (`Enrolment.PollAcrossAnswers`).
- **The last working config is lost** when awg-quick is missing at the time of an attempt
  (`Agent.RetainedIff`) or when the first config never came up (`Agent.FirstFailureIsKept`). It is also
  lost when a push and an edit overlap, since nothing serialises them
  (`Agent.OverlappingCallsLoseTheConfig` is one schedule): over all schedules of two failing calls it
  is kept exactly when neither call backs up while the file holds something else
  (`Agent.TwoCallsRetainIff`). When one of the two comes up, its config is the one in the file at the end
  exactly when the other neither overwrites it without a backup of it nor has it written between its
  own failed start and its restore (`Agent.MixedCallsRetainIff`). Otherwise a push can be recorded as
  applied while the older config runs, and is not retried (`Agent.EditHidesThePush`).
- **The resolver's table depends on map order** exactly when two spellings of one domain carry
  different upstreams (`Resolver.TableIsUniqueIff`), and the store can hand it two such spellings
  (`Resolver.StoredDomainsCanCollide`). Its answers, given a table, never do.
- **A DNS server given as a bracketed address with a port gets a second port**
  (`Resolver.BracketedPortIsDoubled`); every other form is asked on its own port or on 53
  (`Resolver.PortsAreFilledIn`).
- **A pool of /31 or /32 serves nobody** (`Alloc.TinyPoolsServeNothing`).
- **The hub's own node can lose the hub's address.** Rejecting it and approving it again leaves it on
  an address of the pool (`Invariant.RejectedHubNodeMoves`). A transaction moves its address exactly
  when it approves that node while it is not active and an address is free
  (`Invariant.HubRowMovesIff`).

## Model

| member | source | states |
|---|---|---|
| Net.ContainsIffSameTopBits | internal/store/alloc.go:57-64 | membership in a prefix is agreement on its leading bits (section 3.1 of RFC 4632) |
| Net.OverlapsIffShared | internal/store/node_links.go:58-90 | the overlap test holds precisely when some address lies in both prefixes |
| Net.Nested | internal/awg/render.go:39-53 | two prefixes that share an address are nested |
| Model.CollectDests | internal/awg/model.go:75-88 | the deduplicating loop returns the first occurrences, in order |
| Model.RuleDestsExact | internal/awg/model.go:75-88 | a prefix is a destination exactly when some rule names it, and none is repeated |
| Nft.NftRuleLines | internal/awg/nft.go:163-194 | the expansion of one rule is the specified line list |
| Nft.RuleLinesExact | internal/awg/nft.go:163-194 | the expanded lines accept a packet exactly when the rule's destination, protocol and port range admit it |
| Nft.EvaluateIffSomeFires | internal/awg/nft.go:47-60 | an all-accept chain with default drop accepts exactly when some line fires |
| Nft.GrantLinesExact | internal/awg/nft.go:62-99 | a grant's lines accept exactly what the grant allows: hub exit by WAN only, node exit outside the mesh, full subnets or a rule |
| Nft.LinkLinesExact | internal/awg/nft.go:104-113 | a link's lines accept exactly the pairs of the source's LANs or tunnel address with the destination's LANs |
| Nft.ForwardChainExact | internal/awg/nft.go:20-115 | the whole chain accepts exactly established flows, allowed grants and allowed links |
| Nft.AllButWanIsClamped | internal/awg/nft.go:48-59 | before anything decides, the chain clamps everything but what leaves by the WAN interface |
| Nft.MeshSet | internal/awg/nft.go:27-39 | the mesh list is the real nodes' subnets, then the pool |
| Nft.AppendGrant | internal/awg/nft.go:62-99 | the body of the grant loop appends exactly the grant's lines |
| Nft.RenderGrants | internal/awg/nft.go:62-99 | the grant loop appends every grant's lines in order |
| Nft.RenderLinks | internal/awg/nft.go:104-113 | the nested link loops append every pair's lines in order |
| Nft.RenderNFT | internal/awg/nft.go:20-115 | the renderer builds the specified chain |
| Render.LookupIsLongestMatch | internal/awg/render.go:39-62 | lookup returns an entry that contains the address and none that contains it is longer |
| Render.LookupOwner | internal/awg/render.go:39-62 | if every entry around an address names one peer, lookup finds that peer |
| Render.HubTableExact | internal/awg/render.go:21-65 | the table's entries are exactly nodes' tunnel addresses and LANs and clients' addresses; the hub node has none |
| Render.RenderHub | internal/awg/render.go:21-65 | the peer loops build the specified table |
| Render.RenderNodeAllowed | internal/awg/render.go:276-290 | a node's AllowedIPs hold the pool and every linked subnet once, and nothing else |
| Render.CollapsePreservesCoverage | internal/awg/render.go:312-322 | collapsing to 0.0.0.0/0 never changes what the list covers |
| Render.ClientAllowedCovers | internal/awg/render.go:298-322 | a client's list covers the hub, everything for an exit, and otherwise exactly the granted destinations |
| Render.RenderClientAllowed | internal/awg/render.go:298-322 | the append and collapse loops build that list |
| Alloc.LastAddr | internal/store/alloc.go:69-78 | the byte-wise OR loop computes network + 2^(32-bits) - 1 |
| Alloc.ScanPool | internal/store/alloc.go:57-66 | the scan stops at 255.255.255.255 at the latest and returns the specified address |
| Alloc.AllocateIsLeast | internal/store/alloc.go:57-66 | allocation returns the least free host address and fails exactly when all are used |
| Alloc.ServesWhatIsFree | internal/store/alloc.go:19-66 | n allocations in a row succeed exactly when n host addresses are free |
| Alloc.PoolCapacity | internal/store/alloc.go:19-66 | a pool of length at most 30 with the hub inside serves exactly 2^(32-bits) - 3 addresses |
| Alloc.TinyPoolsServeNothing | internal/store/alloc.go:57-66 | pools of length 31 and 32 have no host address |
| AllocProtocol.AddressesAlwaysUnique | internal/store/alloc.go:19-66 | over every interleaving of allocating transactions all addresses differ across both tables and lie where they may |
| AllocProtocol.WithoutLockAddressesCollide | internal/store/alloc.go:20-22 | from any good state with a free address, if taking the lock does not wait, some run of two transactions gives a node and a client the same address |
| Store.InsertSubnets | internal/store/queries.go:44-71 | the insert loop leaves exactly the given subnets or rejects them all |
| Store.Store.AllocateIP | internal/store/alloc.go:19-66 | collecting used addresses and scanning yields the specified allocation |
| Store.Store.CreateNode | internal/store/queries.go:44-71 | the transaction commits exactly the specified database or leaves it alone |
| Store.Store.CreateClient | internal/store/queries.go:73-90 | likewise for clients |
| Store.Store.ApproveNode | internal/store/enroll.go:122-142 | approval allocates once, and an active node with an address is left alone |
| Store.Store.EnrollNode | internal/store/enroll.go:42-104 | enrolment commits the row of Changes.FirstAnnouncementDoes or Changes.ReannouncementDoes, and returns that row's token and status |
| Store.Store.SetGrantRules | internal/store/grant_rules.go:78-112 | rules are replaced as a whole by the rows of Changes.RulesOpenExactly; one bad rule leaves everything as it was |
| Store.Store.SetGrantExit | internal/store/grant_rules.go:132-163 | the exit toggles only if no other node is the client's exit |
| Store.Store.SetNodeLink | internal/store/node_links.go:58-90 | a link is made exactly between two active real nodes with subnets none of which overlap |
| Store.Store.Snapshot | internal/store/queries.go:151-238 | its statements, with nothing committed in between, and the assembly give the snapshot of the database |
| Store.Store.ListNodes | internal/store/queries.go:113-149 | the node statement lists the visible nodes with their subnets |
| Store.Store.DomainRoutes | internal/store/api_queries.go:145-164 | the map holds exactly the domains active nodes serve, each with the server of a node that serves it |
| Store.Store.SetNodeDomains | internal/store/api_queries.go:121-141 | the domains are replaced as a whole by the cleaned ones, and nothing is stored for a node that does not exist |
| Queries.CollectGrants | internal/store/queries.go:198-237 | grants whose client or node the other answers did not list are skipped, the rest keep their order |
| Queries.CollectLinks | internal/store/node_links.go:118-137 | links with an end the node answer did not list, or without subnets, are skipped |
| Queries.AssembleSnapshot | internal/store/queries.go:151-238 | the loops put the specified snapshot together from the answers, whichever databases gave them |
| Queries.AssembledIsSnapshot | internal/store/queries.go:151-238 | answers of one database assemble to that database's snapshot |
| Queries.CollectDomains | internal/store/api_queries.go:155-164 | the map holds the domains of the rows, each with the server of its last row |
| Queries.RoutesAreServed | internal/store/api_queries.go:145-164 | in whatever order the rows come, every served domain is in the map, nothing else is, and its server is that of a node that serves it |
| Queries.OrderForRoutes | internal/store/api_queries.go:145-164 | and every such map comes from some order of the rows |
| Queries.RoutesAreFixedIff | internal/store/api_queries.go:145-164 | the map is independent of row order exactly when no domain is served by two active nodes with different servers |
| Queries.SharedDomainDepends | internal/store/api_queries.go:145-164 | two nodes serving one domain, and two orders of their rows that give it different servers |
| Store.Store.GetClientForExport | internal/store/api_queries.go:233-285 | the export holds the client's grants on visible nodes, one per row, with their subnets and rules |
| Changes.CreateNodeDoes | internal/store/queries.go:44-71 | a node is made exactly when an address, its name and its id are free and its subnets masked and distinct; its row holds what was asked, active, and no other row moves |
| Changes.FirstAnnouncementDoes | internal/store/enroll.go:84-101 | a first announcement leaves a pending row with the announced name, interface, key and exactly the announced subnets, and is refused exactly on a bad subnet or a taken name |
| Changes.ReannouncementDoes | internal/store/enroll.go:50-83 | a later one brings interface and subnets up to date, an empty list keeping the old subnets, and touches nothing else but token and status |
| Changes.HubNodeIsMade | internal/store/hub_node.go:20-48 | the panel's own node is made active, on the hub's address, owning every address |
| Changes.ExitSwitchDoes | internal/store/grant_rules.go:132-163 | the exit is refused exactly on a missing grant, on the hub's node, or when the client exits elsewhere, and moves that column only |
| Changes.RulesAreRefusedIff | internal/store/grant_rules.go:78-112 | rules are refused exactly when the grant is missing or a field of some rule is out of range, and no other grant is touched |
| Changes.RulesOpenExactly | internal/store/grant_rules.go:78-112 | after rules were set the grant opens a new flow exactly when one of them, as given, admits its destination, protocol and port, exit traffic apart |
| Changes.AdmittedByRuleIsAccepted | internal/awg/nft.go:163-194 | and the chain rendered from them accepts it |
| Changes.LinkDoes | internal/store/node_links.go:58-90 | a link is taken exactly between two different active real nodes that each have a LAN and share no address |
| Changes.SpellingsAreStoredAlike | internal/store/api_queries.go:121-141 | a domain is stored the same in any case, with a final dot, as a wildcard, and with white space at either end |
| Changes.StoredDomainsAreClean | internal/store/api_queries.go:121-141 | a stored domain has no capital and is neither empty nor a bare wildcard |
| Text.LowerIffSameSpelling | internal/resolver/resolver.go:36-61 | two texts have one lower-case form exactly when they agree letter by letter up to case |
| Invariant.SetGrantExitPreserves | internal/store/grant_rules.go:132-163 | the guards keep at most one exit per client and none on the hub node |
| Invariant.StepPreserves | internal/store/queries.go:44-111 | every transaction preserves address uniqueness and placement, key and token uniqueness, references, single exits and links off the hub |
| Invariant.ReachableStatesSatisfyInv | internal/store/queries.go:44-111 | hence every state of every run does |
| Invariant.AllocatedIsNew | internal/store/alloc.go:36-66 | an allocated address is a host address nobody holds |
| Invariant.HubRowMovesIff | internal/store/enroll.go:122-155 | a transaction moves the hub node's address exactly when it approves that node while it is not active and an address is free |
| Invariant.RejectedHubNodeMoves | internal/store/enroll.go:122-155 | rejecting and then approving the hub's node leaves it on an address of the pool other than the hub's |
| Invariant.DeleteNodePreserves | internal/store/api_queries.go:95-98 | deleting a node leaves no grant, rule or link that names it |
| Undo.DeleteUndoesCreateClient | internal/store/api_queries.go:166-169 | deleting a new client restores the database exactly |
| Undo.DeleteUndoesCreateNode | internal/store/api_queries.go:95-98 | deleting a new node restores the database exactly |
| Undo.RevokeUndoesGrant | internal/store/queries.go:92-111 | revoking undoes granting after any sequence of rule and exit changes to the grant, accepted or refused |
| Undo.UnlinkUndoesLink | internal/store/node_links.go:91-95 | unlinking undoes linking |
| Undo.EnableUndoesDisable | internal/store/api_queries.go:172-176 | switching a client off and on restores the database |
| Undo.DeletedClientIsCut | internal/store/api_queries.go:166-169 | no new flow from a deleted client's address is permitted |
| Undo.UpdateClientCuts | internal/store/api_queries.go:172-176 | nor from a disabled client's |
| Undo.ExitIsExclusive | internal/store/grant_rules.go:132-163 | a successful toggle leaves exactly the asked exit on and no other column changed |
| Snapshot.NodesExact | internal/store/queries.go:113-149 | the snapshot's nodes are exactly the active ones with an address |
| Snapshot.ClientsExact | internal/store/queries.go:168-197 | its clients are exactly the enabled ones |
| Snapshot.GrantsExact | internal/store/queries.go:198-237 | its grants are exactly those of enabled clients on visible nodes |
| Snapshot.LinksExact | internal/store/node_links.go:118-137 | its links are exactly those between visible nodes with subnets |
| Snapshot.RulesExact | internal/store/grant_rules.go:25-48 | a grant's rules as read are the stored ones up to order |
| Policy.AclExact | internal/awg/nft.go:20-115 | the compiled chain accepts a new flow exactly when the policy stated on the database permits it |
| Policy.MeshExact | internal/awg/nft.go:27-39 | the mesh set denotes exactly the pool and the real nodes' LANs |
| Policy.ClientFrame | internal/awg/nft.go:62-99 | granting, revoking, rules and exit of one client change no verdict for any other source |
| Policy.ClientFrameOnVerdicts | internal/awg/nft.go:62-99 | the same, said of the two chains loaded before and after |
| Policy.GrantingOnlyAdds | internal/store/queries.go:92-97 | granting never takes a permission away |
| ExitPlan.NamesAreSane | internal/awg/apply.go:129-156 | device names carry the owned prefix and have at most 10 characters, tables lie in 1000..66535 |
| ExitPlan.NamesAreNumbers | internal/awg/apply.go:151-156 | a device is named by the node's last two bytes as a decimal number, its table is that number plus a thousand |
| ExitPlan.NamesInjectiveIff | internal/awg/apply.go:151-156 | names and tables tell all nodes of a pool apart exactly when the pool is a /16 or smaller |
| ExitPlan.ExitDevsExact | internal/awg/apply.go:161-180 | devices are exactly the distinct exit nodes in strictly increasing order |
| ExitPlan.ExitRulesExact | internal/awg/apply.go:161-180 | rules are the routes' rules, sorted, and each looks up a planned device's table |
| ExitPlan.PlanIsCanonical | internal/awg/apply.go:161-180 | the plan depends only on the multiset of routes |
| ExitPlan.MakeExitPlan | internal/awg/apply.go:161-180 | the `seen` loop and the two sorts compute the plan |
| Kernel.Host.Run | internal/awg/apply.go:365-380 | a command has its effect or none; a kernel that is not faulty refuses exactly what the semantics refuses |
| Kernel.Host.ListLinks | internal/awg/apply.go:329-351 | the listing names only owned devices, and all of them when it works |
| Apply.FlushRules | internal/awg/apply.go:234-240 | the delete loop ends, touches one preference only, and empties it on a kernel that is not faulty |
| Apply.ReapDevices | internal/awg/apply.go:252-260 | only unwanted owned devices and their routes go |
| Apply.EnsureDevice | internal/awg/apply.go:261-305 | one device is created, addressed and routed to; cut off anywhere it changes nothing else |
| Apply.EnsureDevices | internal/awg/apply.go:261-305 | for any plan, devices that share a name included, the loop settles every planned device, and fails exactly when one was left down |
| Apply.AddRules | internal/awg/apply.go:311-322 | rules are added in order; it fails exactly on a duplicate |
| Apply.PrefsAreInOrder | internal/awg/apply.go:129-136 | the mesh rules come before the source rules and both before the main table's |
| Apply.EnsureExitRoutes | internal/awg/apply.go:210-324 | from any state a run, complete or cut off, stays within what the applier owns; it succeeds exactly when feasible, and then the state is the plan |
| Stabilise.HistoryKeepsAgreement | internal/awg/apply.go:210-324 | after any history of interrupted runs every owned device still leads where its name says |
| Stabilise.CompleteRunReachesPlan | internal/awg/apply.go:210-324 | one complete run then ends with exactly the planned rules, devices and default routes |
| Stabilise.SecondRunChangesNothing | internal/awg/apply.go:210-324 | a second run is feasible and changes nothing |
| Stabilise.DeviceLeadsIff | internal/awg/apply.go:261-268 | in any pool, after any run, a planned device leads to a node exactly when it was there and led there, or is new and the node is the first planned of its name |
| Stabilise.DeviceKeepsItsNode | internal/awg/apply.go:252-268 | while every plan asks for its name a device keeps its endpoints over any history of runs |
| Stabilise.CutOffAfterLinkAdd | internal/awg/apply.go:262-268 | a run cut off after creating a device leaves a state in which the same plan is infeasible |
| Stabilise.DownDeviceStaysDown | internal/awg/apply.go:261-305 | no further run that plans the device repairs it |
| Stabilise.DownDeviceIsNeverPlan | internal/awg/apply.go:261-305 | no run that plans the device, finished or cut off, ends in its plan |
| Stabilise.ReplanningRepairs | internal/awg/apply.go:252-260 | after a complete run without the device it is gone, and any plan is feasible exactly when it repeats no rule |
| Stabilise.PlansAreSeparate | internal/awg/apply.go:151-180 | in a /16 or smaller no two planned devices share a name or a table |
| Service.EnsureRoutes | internal/awg/apply.go:99-115 | every LAN is pinned to the tunnel interface, a default route never, nothing else changes |
| Service.ExitRoutesExact | internal/service/service.go:75-80 | the exit routes are exactly those of the node-exit grants |
| Service.LanRoutes | internal/service/service.go:52-59 | the pinned LANs are the real nodes' subnets |
| Service.CollectExitRoutes | internal/service/service.go:75-80 | the loop collects the exit routes in order |
| Service.Service.Apply | internal/awg/apply.go:31-91 | the table and the chain are loaded, and an existing interface is left up |
| Service.Service.ApplyRoutes | internal/service/service.go:50-83 | the kernel half of a pass: LANs pinned, exit routing as planned, in force exactly when feasible |
| Service.Service.Install | internal/service/service.go:46-83 | the same for any snapshot, put together from whatever databases |
| Service.Service.Reconcile | internal/service/service.go:37-83 | a pass that succeeds leaves exactly the snapshot's compilation in force and hands the resolver the domain map; it succeeds exactly when the exit plan is feasible; and every pass, finished or not, leaves the interface ready for the next one and exit devices leading where they led, or, new ones, to the first planned node of the name |
| Feasibility.MeshDistinct | internal/service/service.go:70-74 | no mesh prefix is listed twice, so no mesh rule is refused as a duplicate |
| Feasibility.RoutesHaveDistinctClients | internal/service/service.go:75-80 | at most one exit route and one source rule per client |
| Feasibility.ReconcileIsFeasible | internal/service/service.go:37-83 | what Reconcile asks is feasible unless a planned device was left down |
| Feasibility.AgreeingDevicesLeadHome | internal/awg/apply.go:261-268 | from devices that lead where their names say, as they do after any history of runs in a /16 or smaller, a pass leads every exit client home |
| Feasibility.ReachableReconcile | internal/service/service.go:37-83 | over every run: Reconcile's plan is feasible unless a planned device was left down, and once in force the chain forwards exactly what the database permits; in a /16 or smaller the plan is sound and leads every exit client home from devices that agree with their names |
| Delivery.TableExact | internal/awg/render.go:39-62 | the table of the whole database holds exactly the tunnel addresses and LANs of visible nodes and enabled clients |
| Delivery.LanOwner | internal/awg/render.go:39-53 | a LAN address is sent to, and accepted from, its own node's peer |
| Delivery.NodeOwner | internal/awg/render.go:39-53 | a node's tunnel address belongs to its peer |
| Delivery.ClientOwner | internal/awg/render.go:55-62 | a client's address belongs to its peer |
| Delivery.RoutesExact | internal/service/service.go:75-80 | exit routes lead from clients with a live exit grant to that grant's node |
| Delivery.OneRoutePerClient | internal/service/service.go:75-80 | two routes from one client are the same route |
| Delivery.ExitAgreement | internal/awg/apply.go:308-322 | for an exit client policy routing picks the device named after its own node exactly when the destination is outside the mesh, exactly when the exit line matches |
| Delivery.ExitDeviceLeadsHome | internal/awg/apply.go:261-268 | after a pass the client's exit device is up and ends at its own exit node exactly when it led there before, or is new and no exit node of lower address has the same device name |
| Delivery.NonExitSourcesUseMain | internal/awg/apply.go:308-322 | every other source is routed by the main table |
| Delivery.MeshUsesMain | internal/awg/apply.go:308-315 | destinations in the mesh always are |
| Delivery.LanRoutedToTunnel | internal/awg/apply.go:99-115 | the main table sends every LAN address into the tunnel interface |
| Delivery.PoolRoutedToTunnel | internal/awg/apply.go:36-60 | the main table sends every address of the pool into the tunnel interface |
| Delivery.ClientConfigCovers | internal/awg/render.go:298-322 | what a grant opens the client's AllowedIPs cover exactly unless the grant is a hub exit with rules and the destination is neither the hub nor exported otherwise |
| Delivery.ClientConfigExact | internal/awg/render.go:298-322 | a client's AllowedIPs hold the hub and what its grants on visible nodes export, no more and no less |
| Delivery.HubRuleNarrowsTheClientOnly | internal/awg/nft.go:62-68 | with a single hub exit of one rule the filter lets the client out anywhere, and its AllowedIPs cover exactly the rule's destination |
| Delivery.ClientDelivery | internal/awg/nft.go:62-99 | end to end, for whatever a grant opens into its node's LAN, rules or not: client AllowedIPs, hub source check, accept, main table, the right peer, the node's source check; and back: accepted as part of the flow, routed into the tunnel, sent to the client's peer |
| Delivery.DisabledClientIsCut | internal/store/queries.go:168-197 | no new flow from a disabled client's address is permitted |
| Delivery.ReachCovers | internal/store/node_links.go:144-166 | a node's AllowedIPs cover the LAN of every node it is linked with, either way |
| Delivery.LinkDelivery | internal/store/node_links.go:118-166 | site to site end to end, forward and return, routing into the tunnel included both ways |
| Journeys.PolledLinkDelivery | internal/api/handlers_enroll.go:73-98 | the same with the reach lists the two nodes' polls answer |
| Delivery.OuterPacketDelivered | internal/awg/apply.go:261-305 | the packet around exit traffic goes by the main table into the tunnel interface and to the exit node's peer |
| Delivery.ExitDelivery | internal/awg/apply.go:210-324 | exit end to end: client AllowedIPs, source check, accept, the device that ends at the client's exit node, the packet around it to that node's peer; and the reply back to the client |
| WidePool.LowExitIsLedHigh | internal/awg/apply.go:261-268 | in 10.0.0.0/15: two successful passes from an empty kernel, after which the device of the exit 10.0.0.2 leads to 10.1.0.2 |
| WidePool.PhoneIsLowest | internal/awg/apply.go:151-156 | although 10.0.0.2 is the lowest node of the shared name |
| Journeys.EnrolledNodeIsReached | internal/store/enroll.go:84-142 | announced and approved, a node's own address and every announced LAN address are sent to, and accepted from, the key it announced |
| Journeys.ReannouncedNodeIsReached | internal/store/enroll.go:50-83 | an active node that announces other subnets owns exactly those from then on |
| Journeys.CreatedNodeIsReached | internal/store/queries.go:44-71 | a node the administrator makes is reached at once |
| Journeys.CreatedClientIsServed | internal/store/queries.go:73-97 | a new client's address belongs to its key, and a grant lets it into the node's LANs |
| Journeys.RejectedNodeIsCut | internal/store/enroll.go:144-155 | after a rejection no grant, link or domain of the node is in effect, and announcing itself again changes none of that |
| Journeys.RejectedNodeIsNotListed | internal/store/enroll.go:144-155 | and no entry of the table names its key |
| Journeys.PolledConfigIsExact | internal/store/api_queries.go:197-229 | a polled config holds the row's own subnets, and its reach list renders to AllowedIPs that cover exactly the pool and the LANs of linked nodes |
| Handlers.QuiescentConsistency | internal/service/service.go:32-94 | with no handler in flight and the last reconcile successful, the hub's address and pool, the cryptokey table, the chain, the exit routes, the mesh and the domain map in force are those of the current database, for every interleaving of statements |
| Handlers.QuiescentPolicy | internal/service/service.go:32-94 | so the chain in force accepts a new flow exactly when the current database permits it |
| Handlers.QuiescentRunning | internal/service/service.go:32-94 | and the hub is running, kernel included, as the delivery theorems ask, although no pass need have read one database |
| Handlers.CurrentIsOneRead | internal/store/queries.go:151-238 | answers read one by one that are all current are those of one database read at once |
| Handlers.StepKeepsInvariant | internal/service/service.go:32-40 | every step keeps: a full read is still to come, or the one in progress saw nothing stale, or all is current |
| Handlers.HandlerCanFinish | internal/service/service.go:37-94 | a handler that changed something can ask, take the free mutex and carry its pass through, which leaves the current database in force |
| Staleness.EarlyReturnIsHarmless | internal/api/handlers.go:88-133 | an early return whose change no statement sees leaves what is in force right |
| Staleness.UpdateClientUnobservedIff | internal/store/api_queries.go:172-176 | a client update alters an answer exactly when the switch moves |
| Staleness.PatchClientConsistentIff | internal/api/handlers.go:240-251 | what is in force is, or is about to become, the rendering of the database unless a moved switch comes with a bad colour, and then it is not |
| Staleness.ColorAcceptedIff | internal/store/api_queries.go:106-118 | a colour passes exactly when empty or a # and six hexadecimal digits |
| Staleness.DnsChangeIsStaleIff | internal/store/api_queries.go:100-164 | when nodes' servers and domains change, what is in force stays right exactly when the resolver's map is a route map of the new rows |
| Staleness.PatchNodeConsistentIff | internal/api/handlers.go:88-133 | a node update leaves what is in force right, or a reconcile on its way, exactly when it is accepted or the map in force is a route map of what it leaves |
| Staleness.PatchNodeAloneIff | internal/api/handlers.go:88-133 | for a node that serves alone, exactly when the colour is good or the request keeps what the node offers |
| Staleness.FirstServerIsLost | internal/api/handlers.go:88-133 | a first DNS server sent with a bad colour is stored and stays out of the resolver |
| Staleness.EnrollNewIsUnobserved | internal/api/handlers_enroll.go:60-69 | enrolling a new node alters no answer |
| Staleness.ReannounceUnobservedIff | internal/store/enroll.go:57-79 | a re-announcement alters none exactly when the node is not visible or its subnets stay |
| Staleness.ReannounceConsistentIff | internal/store/enroll.go:57-79 | and what is in force stays the rendering of the database exactly then |
| Rendering.AnswersDecidePolicy | internal/store/queries.go:151-238 | databases that answer alike enforce the same policy |
| Rendering.RenderedAlike | internal/service/service.go:37-83 | and render to the same five artefacts |
| Enrolment.PollAcrossAnswers | internal/api/handlers_enroll.go:73-98 | over any run with commits between lookup and export: the holder of a row that was active gets a config with the row's address, and the poll fails exactly when the row was deleted in between |
| Enrolment.TokenIsStable | internal/store/enroll.go:50-66 | no transaction but the row's deletion takes its token |
| Enrolment.TokenIsReturnedAgain | internal/store/enroll.go:42-104 | a token once issued to a key is returned by every later enrol until deletion |
| Enrolment.UnknownIffDeleted | internal/api/handlers_enroll.go:73-79 | "unknown token" is answered exactly after deletion or when the lookup fails |
| Enrolment.ApprovalOpensThePoll | internal/store/enroll.go:122-155 | approval makes the token fetch a config, rejection makes it fetch none |
| Enrolment.EnrolNeverApproves | internal/store/enroll.go:50-66 | no announcement makes a row active or gives it an address, and it turns a rejected one pending |
| Enrolment.ActiveWasApproved | internal/store/enroll.go:122-142 | an active row was approved or made by an administrator, and not rejected or deleted since |
| NodeScripts.RenderNodeScripts | internal/awg/render.go:129-271 | the renderer writes the two lists whose effect HostFirewall and ScriptUndo state, in their order |
| NodeScripts.XkeenLines | internal/awg/render.go:256-271 | the loop puts the first rule at the head of its chain and the OUTPUT rule at the end |
| HostFirewall.LineRead | internal/awg/render.go:129-271 | a printed line is read back as its verb, table, chain and rule |
| HostFirewall.ToleranceRead | internal/awg/render.go:129-271 | followed by the words that tolerate a failure exactly on a tolerated line |
| HostFirewall.GuardedRead | internal/awg/render.go:256-271 | a guarded line probes for, and adds, one and the same rule, behind the test for XKeen |
| HostFirewall.TextMatches | internal/awg/render.go:129-271 | the words of each rule match exactly the packets it is for |
| HostFirewall.TextActs | internal/awg/render.go:129-271 | and do with them what it is for |
| HostFirewall.TunnelPacketsPass | internal/awg/render.go:140-152 | after a bring-up the host forwards between the tunnel and any other interface and takes in what arrives by it, whatever rules it had |
| HostFirewall.ExitPacketsPass | internal/awg/render.go:208-209 | and forwards whatever arrives or leaves by the exit device, if it could add the rules |
| HostFirewall.MasqueradeIsExact | internal/awg/render.go:129-139 | what is masqueraded, where the host does not decide, is exactly the pool leaving elsewhere than by the tunnel and linked LANs leaving by the node's own |
| HostFirewall.BringUpRoutesTheExit | internal/awg/render.go:187-223 | on a host that can, bring-up ends with an addressed exit device that is up, the mark's policy rule and its default route |
| HostFirewall.ExitReplyRetraces | internal/awg/render.go:163-223 | a flow that came in by the exit device is answered through it, and no other flow is |
| HostFirewall.ClampsAreThere | internal/awg/render.go:153-169 | connections into the tunnel are clamped to 1280, forwarded or local, and exit ones to the path's size |
| HostFirewall.XkeenRulesAreThere | internal/awg/render.go:256-271 | on a host with XKeen the tagging rule is first in its chain and the re-marking rule in OUTPUT |
| ScriptUndo.ListsMatch | internal/awg/render.go:129-271 | PostDown deletes exactly what PostUp adds, copy by copy, for any reach list |
| ScriptUndo.RunKeepsOthers | internal/awg/render.go:129-271 | no line of either list drops or reorders a foreign rule |
| ScriptUndo.BringUpSucceedsIff | internal/awg/render.go:129-271 | bring-up succeeds exactly when forwarding and the LAN rules are possible; no tolerated failure or leftover aborts it |
| ScriptUndo.DownNeverAborts | internal/awg/render.go:143-160 | a tear-down with enough copies of the rules it must delete runs to its end |
| ScriptUndo.DownUndoesUp | internal/awg/render.go:129-271 | up then down restores every chain as a sequence, the policy rules, table 133 and the links; only forwarding stays on |
| Replay.RunHook | scripts/install.sh:1009-1033 | the read loop computes the specified state, given that the probe says whether the rule is present |
| HookText.ProbeIsExact | scripts/install.sh:1018-1031 | on every line of the rendered list the textual probe says exactly that |
| HookText.RewriteAsksForTheRule | scripts/install.sh:1018-1031 | cutting at the first || and turning the first -I or -A into -C yields the -C line of the line's own rule, and differs from the line |
| HookText.OneRulePerText | scripts/install.sh:1018-1031 | two rules with the same -C line are the same rule of the same chain |
| Replay.HookCounts | scripts/install.sh:1018-1031 | a present rule keeps its copies and a missing one gets exactly one, however many lines ask for it |
| Replay.HookRestores | scripts/install.sh:1009-1033 | after a run every supported rule is present, none gained a copy, and every chain keeps its old rules in order |
| Replay.SecondRunIsIdle | scripts/install.sh:1009-1033 | a second run changes nothing |
| Agent.NodeAgent.WriteAndApply | cmd/nodeagent/main.go:456-490 | the file operations have exactly the specified effect and it reports success exactly when the config came up |
| Agent.NodeAgent.Teardown | cmd/nodeagent/main.go:340-346 | both files are gone; the interface is gone exactly as far as awg-quick brought it down, whose failure is ignored |
| Agent.NodeAgent.PollOnce | cmd/nodeagent/main.go:257-300 | one turn of the loop is one step of the state machine |
| Agent.NodeAgent.ApplyEdit | cmd/nodeagent/main.go:535-548 | the editor applies a text exactly when it has an interface section |
| Agent.EditIsAppliedIff | cmd/nodeagent/main.go:535-548 | a text with an interface section anywhere in it is applied, any other changes nothing |
| Agent.OtherAnswersAreIdle | cmd/nodeagent/main.go:264-300 | every answer but a new config of an active node, or the news that it is gone, leaves files, interface and restarts alone |
| Agent.NewConfigIsApplied | cmd/nodeagent/main.go:283-292 | a new config of an active node is applied, and recorded exactly when it came up |
| Agent.LastGoodIsRetained | cmd/nodeagent/main.go:456-490 | with awg-quick on PATH the file holds the last config that came up, over any pushes and edits |
| Agent.RetainedIff | cmd/nodeagent/main.go:470-475 | over any run it does throughout exactly when no attempt without awg-quick changes the file |
| Agent.AttemptLosesIff | cmd/nodeagent/main.go:456-490 | one attempt loses it exactly when awg-quick is missing and the text differs |
| Agent.FirstFailureIsKept | cmd/nodeagent/main.go:478-485 | with nothing to fall back to a failed config stays and is restored later |
| Agent.InterfaceRunsTheFile | cmd/nodeagent/main.go:456-490 | while restored configs come up again the interface runs what the file says |
| Agent.RestartsAreAttempts | cmd/nodeagent/main.go:283-292 | the interface is restarted once per attempt and for nothing else |
| Agent.RepeatedPushIsIdle | cmd/nodeagent/main.go:283-292 | reports of the config last applied restart nothing |
| Agent.PushIsRetriedUntilUp | cmd/nodeagent/main.go:283-292 | a pushed config is retried exactly until it came up |
| Agent.GoneForgetsEverything | cmd/nodeagent/main.go:264-271 | an unknown token forgets files, token and last config, so the same config is applied anew after reconnecting |
| Agent.InterfaceStopsIff | cmd/nodeagent/main.go:340-353 | the interface of a node that is gone stops exactly when awg-quick is there and takes it down, and otherwise runs on without a file |
| Agent.AloneIsApplied | cmd/nodeagent/main.go:456-490 | the step-by-step call run alone is the atomic one |
| Agent.TwoCallsRetainIff | cmd/nodeagent/main.go:456-490 | of two failing calls in any interleaving the working config survives exactly when neither backs up while the file holds something else |
| Agent.MixedCallsRetainIff | cmd/nodeagent/main.go:456-490 | of two calls of which one comes up, over any files and any interleaving, that one's config is in the file at the end exactly when the other neither overwrites it unsaved nor has it written just before its restore |
| Agent.WorkingCallsAgree | cmd/nodeagent/main.go:456-490 | of two calls that both come up one wins file and interface alike |
| Agent.EditHidesThePush | cmd/nodeagent/main.go:283-292 | a push that came up is undone by a failing edit and not pushed again |
| Agent.OverlappingCallsLoseTheConfig | cmd/nodeagent/main.go:456-490 | a schedule that loses it, file and backup both |
| Resolver.DnsRouter.SetRoutes | internal/resolver/resolver.go:36-45 | the table is the one some order of the walk builds |
| Resolver.TableExact | internal/resolver/resolver.go:36-45 | in any order it holds every domain under its normal form with the port filled in, and nothing else |
| Resolver.DnsRouter.Pick | internal/resolver/resolver.go:49-61 | the walk, in any order, returns the upstream of a longest matching domain or the default |
| Resolver.PickIsUnique | internal/resolver/resolver.go:49-61 | that answer is unique |
| Resolver.TableIsUniqueIff | internal/resolver/resolver.go:36-45 | all orders of walking the map give one table exactly when no two spellings of a domain disagree |
| Resolver.StoredDomainsCanCollide | internal/store/api_queries.go:121-141 | the store keeps "x." beside "x", and two servers for them are told apart by order alone |
| Resolver.QueryCaseIsIgnored | internal/resolver/resolver.go:49-61 | spellings that agree letter by letter up to case and a final dot are answered alike (section 2.3.3 of RFC 1035) |
| Resolver.DotsAside | internal/resolver/resolver.go:49-61 | a final dot on either spelling makes no other query of it |
| Resolver.DomainAnswersForItself | internal/resolver/resolver.go:36-61 | every configured domain answers for itself in any such spelling |
| Resolver.AnswerIsClosest | internal/resolver/resolver.go:36-61 | on the configured domains as given, the longest one above the name decides, in any spelling, and without one the default |
| Resolver.PortsAreFilledIn | internal/resolver/resolver.go:100-108 | a server without a port is asked on 53, one with a port is left alone |
| Resolver.BracketedPortIsDoubled | internal/resolver/resolver.go:100-108 | except a bracketed address with a port, which gets a second one |
| NameService.EnteredDomainIsAnswered | internal/store/api_queries.go:121-164 | a domain entered for an active node that serves it alone, in any spelling, sends queries for it and for names under it to that node's server |
| Resolver.MatchesIffUnder | internal/resolver/resolver.go:49-61 | the string test is the test that the domain's labels end the name's labels |
| Resolver.PickIsDeepest | internal/resolver/resolver.go:49-61 | the answer is that of the domain sharing the most labels with the query |

## Left out

- The NAT table of the packet filter (masquerade, DNS redirection) and the client's DNS line.
- The rewriting of segment sizes by the MSS clamps; which packets they apply to is proved.
- Printing and parsing of configs, keys, preshared keys, obfuscation parameters, substitution of the private-key placeholder.
- IPv6 addresses and prefixes.
- The text of the node scripts' `ip` and `sysctl` commands, and what XKeen does with the packets tagged for it.
- The write to `rp_filter` on hub devices, which is best-effort and not read back.
- `ip link add` refused because another device already has the same two endpoints.
- HTTP, sessions, JSON, the web UI, installers other than the netfilter hook, self-update.
- File-write errors in the agent; the config file is written whole or the call is not made.
- Store.Store.SetNodeLink: that linked LANs stay disjoint is not an invariant of runs, because a re-announcement replaces subnets without looking at links.
- Store.Store.SetGrantExit: single exit is proved for serial transactions; the check and the update take no lock.
- Store.Store.EnrollNode: two concurrent enrolments of one new key are not modelled; the public key column has no unique index.
- Staleness.PatchClientConsistentIff: models the request that carries both the switch and the DNS server, which the handler requires to change either; renaming, which no artefact shows, is not modelled in either handler.
- Staleness.PatchNodeConsistentIff: a node's DNS server also stands in the NAT table when the hub runs no resolver; that table is not modelled. A statement that fails because the database is away returns as early as a refused one, and `Staleness.DnsChangeIsStaleIff` then speaks of what was committed.
- Agent.TwoCallsRetainIff: the interleaved calls run on a host that has awg-quick and where a config either comes up or does not, each time it is tried.
- Handlers.QuiescentConsistency: handlers that return early after a change are excluded by `NoDirtyReturn`, because for them it is false; see `Staleness.PatchClientConsistentIff`.
- Enrolment.UnknownIffDeleted: needs that a token in use is not generated a second time.
- Service.Service.Reconcile: says nothing beyond groundedness about a pass that a faulty kernel cuts off; `Apply.EnsureExitRoutes` bounds what its exit part may have changed.
- HookText.ProbeIsExact: text is words; runs of blanks and quoting are not modelled, and the escaping of `%i` is taken as done.
- awg-quick's own route for each AllowedIPs entry on the hub; only the pool route of the interface's address is modelled.
- Bringing the tunnel up with one config and down with another, which the agent does when it replaces the file; the undo theorem is about one config.
