# Seine, verified

Seine turns a declarative network document into WireGuard peer tables and an
iptables chain on many nodes, and keeps them converged through a small
registration protocol. This project is a Dafny 4.11 model of that logic with
proofs of what it promises. `dafny verify dfyconfig.toml` checks all of it.

## How the model is laid out

| file | models |
|---|---|
| `Net.dfy` | IPv4 addresses and prefixes, longest-prefix lookup in an AllowedIPs table |
| `Sequences.dfy` | repetition-free sequences; what `sort.Slice` is relied on for |
| `Spec.dfy`, `Validate.dfy` | the document, its lookups, well-formedness, the validator |
| `Topology.dfy`, `Routing.dfy` | the peer set of one node; what those sets mean together |
| `Tables.dfy` | a node's kernel table between passes, however far they got |
| `Wg.dfy` | the kernel device, the peer diff and its application |
| `Netpolicy.dfy`, `Firewall.dfy` | the ACL compiler, the generated chain, its life in the filter table |
| `Forwarding.dfy` | packets crossing a network of such tables and chains |
| `Store.dfy`, `ControlPlane.dfy`, `Protocol.dfy` | the agents table, the server's handlers, their interleavings |
| `Watcher.dfy` | the spec cache, its signal and its backoff |
| `Agent.dfy` | registration, one reconcile pass, self-healing |
| `Deployment.dfy` | the lives of all nodes, against one registry, composed into one network |
| `Witness.dfy` | a network that meets the assumptions of the end-to-end theorem |

Results to read first: `Deployment.RunEndToEnd` and
`Deployment.RunIsLoopFree` (the whole system), `Wg.DiffReachesTarget`,
`Netpolicy.ChainMeaning`, `Validate.Validate`, `Protocol.TokenUniqueness`,
`Protocol.InFlightIsolation`, `Agent.Agent.SelfHeal`, `Firewall.Lifecycle` and
`Firewall.EnforcedExactly`.

The layers meet in `Agent.Completed`: it is what `Agent.Agent.ReconcileOnce`
ensures of a pass that was answered, and it is the step of a node's life in
`Deployment.Happens`. So "the last pass is done" in the end-to-end theorem is the
`Done` of that method, and what such a pass leaves is derived, not assumed.

### Modelling decisions

- Addresses, prefixes and endpoints stay text in the document, as in the YAML
  file. The functions that read them (netip, net, strconv, wgtypes, DNS) are the
  fields of `Spec.Lib`; every theorem holds for every choice of them.
- The kernel device keeps one map from masked prefix to owning peer, so giving a
  prefix to a peer takes it from another. It masks prefixes, keeps keepalives as
  16 bits of whole seconds, and lists a peer's prefixes in an order of its own.
  A failed configuration may have applied some of its entries in order, and of
  the last one only some of the AllowedIPs.
- A tunnel hop is the egress lookup in the sender's AllowedIPs and the ingress
  check of the source address (cryptokey routing, section 2 of the WireGuard
  paper). Prefix containment follows section 3.1 of RFC 4632.
- Every iptables call may fail, and so may reading and configuring the device;
  flags say whether the kernel and iptables answer, and a failure is reported only
  if they do not. Other programs may edit FORWARD: their rules may decide anything,
  and they may move or drop the jump, but do not add one. A rule that jumps to the
  agent's chain is read for its interfaces, with iptables' trailing plus sign.
- A node's life is a sequence of answered passes, endpoints learned from
  handshakes, foreign edits and restarts, in any order. Its document says of it
  what it said at startup, since the agent keeps that (internal/agentcore/agent.go:222).
- One SQL statement is one atomic step. A heartbeat is three: the interceptor's
  lookup, the update and the listing. Ids and tokens are fresh; where a theorem
  needs it, the hash is collision-free. Neither distinct nor parseable public
  keys are enforced by the server (internal/controlplane/server.go:76-78), so
  theorems that need them say so.
- Durations in the watcher are int64 nanoseconds with explicit wrap-around.

### Where code and documentation disagree

The model follows the code.

- Explicit denies come before allows in the chain
  (internal/netpolicy/firewall_linux.go:148-155); the comment at lines 49-50
  lists them the other way round.
- docs/internal/wg.md says equal configurations are kept stable. A peer the kernel
  cannot hold as written, such as a hub's spoke once its endpoint has been
  learned from a handshake, is listed as updated on every pass.
  `Wg.LearnedEndpointExample` is a concrete case; `Wg.SecondDiff`,
  `Wg.NeverSettles` and `Tables.SecondPass` say exactly which peers this happens to.
- docs/internal/netpolicy.md:125-127 says that inserting the jump at position 1 keeps
  it ahead of rules other components might have added. It is inserted only if
  missing, so rules added later stay ahead of it. `Firewall.JumpBehindOthers` is a
  run in which the policy is bypassed; `Firewall.ReconcileLeads` and
  `Firewall.EnforcedExactly` say exactly when it is not.
- internal/specsource/watcher.go:30-32 promises a delay that doubles up to
  MaxBackoff. That holds for every streak of failures exactly when
  MinBackoff <= MaxBackoff < 2^62 ns (`Watcher.BackoffExact`).

## Model

| member | source | states |
|---|---|---|
| `Net.ContainsExactly` | internal/spec/validate.go:79-80 | a prefix contains exactly the 2^(32 - bits) addresses from its masked address on, which is a multiple of that number; equivalently those with its quotient |
| `Net.ContainsExamples` | internal/spec/validate.go:79-80 | 10.0.0.0/24 runs from 10.0.0.0 to 10.0.0.255, and 0.0.0.0/0 holds every address |
| `Net.LookupFindsBestMatch` | internal/wg/types.go:25-28 | the AllowedIPs lookup returns the owner of the most specific containing prefix, and nothing exactly when no prefix contains the address |
| `Spec.FindHub` | internal/spec/lookup.go:6-13 | the search loop returns the first hub of that name, or nothing when no hub has it |
| `Spec.FindAgent` | internal/spec/lookup.go:16-23 | the search loop returns the first agent of that name, or nothing when no agent has it |
| `Spec.FirstHubWins` | internal/spec/lookup.go:7-11 | of several hubs with a name the first is found |
| `Spec.FirstAgentWins` | internal/spec/lookup.go:17-21 | of several agents with a name the first is found |
| `Spec.AgentsForHub` | internal/spec/lookup.go:27-35 | exactly the agents anchored to the hub, in declaration order |
| `Spec.DeclaredFacts` | internal/spec/validate.go:73-126 | in a well-formed document every declared address parses and lies in the overlay, and every spoke's hub is a hub |
| `Spec.AddressesDiffer` | internal/spec/validate.go:81-85 | in a well-formed document tunnel addresses identify nodes, across hubs and agents |
| `Spec.DefaultsIdempotent` | internal/spec/defaults.go:5-22 | unset fields get the project defaults, set ones stay, twice is once, and nodes and policy are left alone |
| `Spec.NamePattern` | internal/spec/validate.go:12-15 | the valid names are those the label pattern matches, part by part |
| `Validate.CheckAddress` | internal/spec/validate.go:73-88 | an address raises no problem exactly when it parses, lies in the overlay and is new, and then it is recorded; each problem is reported exactly for its reason, "outside" exactly for an address outside the interval of the overlay |
| `Validate.CheckName` | internal/spec/validate.go:94-103 | an invalid name and a taken name are reported as such; a new valid one is recorded |
| `Validate.CheckEndpoint` | internal/spec/validate.go:177-193 | reported exactly unless it is a non-empty host and a port from 1 to 65535 |
| `Validate.CheckGroups` | internal/spec/validate.go:53-66 | no problem exactly when the group names are valid and distinct, although bad entries are skipped; then the set holds them all |
| `Validate.CheckHub` | internal/spec/validate.go:92-110 | one hub raises no problem exactly when its name is valid and new, its endpoint valid, its address inside and new |
| `Validate.CheckHubs` | internal/spec/validate.go:90-110 | the hub loop reports nothing exactly when the hubs are well formed, and then its maps record them |
| `Validate.CheckAgentGroups` | internal/spec/validate.go:128-138 | no problem exactly when the listed groups are declared and listed once |
| `Validate.CheckAgent` | internal/spec/validate.go:113-139 | one agent raises no problem exactly when its name, address, hub and groups are in order given the nodes before it |
| `Validate.CheckAgents` | internal/spec/validate.go:112-139 | after clean hubs, the agent loop reports nothing exactly when all nodes together are well formed |
| `Validate.CheckAcls` | internal/spec/validate.go:141-165 | no problem exactly when every rule has a known action, non-empty sides and declared groups |
| `Validate.CheckEnvelope` | internal/spec/validate.go:26-51 | no problem exactly when version, kind, name, CIDR, MTU and port are in order |
| `Validate.CheckNodes` | internal/spec/validate.go:90-139 | hubs and agents together: nothing reported exactly when names and addresses are globally unique and every reference resolves |
| `Validate.Validate` | internal/spec/validate.go:20-171 | no error is reported exactly when the document is well formed |
| `Topology.FindSelf` | internal/topology/topology.go:41-62 | for a declared name of a well-formed document: its role, address and hub; an error exactly for undeclared names there |
| `Topology.ResolveEndpoint` | internal/topology/topology.go:232-235 | only empty text means "no endpoint"; any failure is a bad endpoint |
| `Topology.ResolvesTo` | internal/topology/topology.go:232-255 | text resolves to an address exactly when it is a host and a port, the port its number and the host a literal or a name whose first DNS answer it is |
| `Topology.IndexByName` | internal/topology/topology.go:79-85 | the index has exactly the non-empty names under which some entry has a key, each with such an entry |
| `Topology.LastEntryWins` | internal/topology/topology.go:79-85 | of several usable entries with a name the last one counts |
| `Topology.HubMeshAllowedIPs` | internal/topology/topology.go:206-220 | the single-host prefixes of the hub and its spokes in order, or the failure of the first that does not parse |
| `Topology.AppendHubs` | internal/topology/topology.go:140-173 | the loop over hubs, with its skips and early returns, has the effect of taking the hub steps in order |
| `Topology.AppendSpokes` | internal/topology/topology.go:175-198 | the loop over the hub's spokes likewise |
| `Topology.BuildHubPeers` | internal/topology/topology.go:132-201 | both loops together compute the specified hub peer list or its first failure |
| `Topology.ComputePeers` | internal/topology/topology.go:68-95 | the whole computation agrees with its specification for both roles |
| `Routing.HubPeersMeaning` | internal/topology/topology.go:132-220 | a hub's list holds exactly its registered neighbours, each with its own key and exactly the addresses routed through it |
| `Routing.HubPeersDistinct` | internal/topology/topology.go:138-198 | no two entries of a hub's list name the same node |
| `Routing.HubTablePartition` | internal/topology/topology.go:132-220 | a hub's entries are disjoint, never hold its own address, and cover another declared address exactly when its next hop has registered |
| `Routing.PeersForRoutes` | internal/topology/topology.go:99-220 | for every address, lookup in the computed table gives the key of the topology's next hop if that node is in view, and nothing otherwise |
| `Routing.PeersForInstallable` | internal/topology/topology.go:132-220 | the peer set has distinct keys and disjoint prefixes exactly when the registered nodes it depends on hold different keys |
| `Routing.PeersForSucceeds` | internal/topology/topology.go:106-119 | the computation succeeds exactly when every registered node it depends on has a parseable key and, if a hub, a resolvable endpoint, and a spoke's hub is registered |
| `Routing.SpokePeersMeaning` | internal/topology/topology.go:99-127 | a spoke's list is its hub alone, for the whole overlay; it exists exactly when the hub is registered and can be dialled |
| `Routing.PeerSettings` | internal/topology/topology.go:120-126 | hubs are dialled at their resolved endpoint with the keepalive; a hub's spokes get neither |
| `Routing.PeersForMembers` | internal/topology/topology.go:99-201 | a computed list holds exactly the nodes in view that the node depends on, each with its own key |
| `Routing.EndpointsSuffice` | internal/topology/topology.go:113-119 | if every hub in view states an endpoint, no computation fails for want of one |
| `Wg.PrefixSetsEqual` | internal/wg/diff.go:86-100 | sorting both lists and comparing decides equality as multisets |
| `Wg.PeersEqual` | internal/wg/diff.go:53-67 | true exactly for the same key, endpoint, prefixes in any order, and keepalive up to normalisation |
| `Wg.ComputeDiff` | internal/wg/diff.go:29-49 | added: desired and unknown; updated: known but different; both in order; removed: each known key not desired, once |
| `Wg.ToConfigs` | internal/wg/iface_linux.go:133-142 | additions keep, updates replace AllowedIPs, removals follow, in this order |
| `Wg.InstallOne` | internal/wg/iface_linux.go:210-224 | one entry gives a peer exactly its prefixes, takes just those from others, and keeps kernel settings it does not state |
| `Wg.TargetFacts` | internal/wg/types.go:79-82 | the full replacement holds exactly the desired keys, each with exactly its prefixes and merged settings |
| `Wg.DiffReachesTarget` | internal/wg/iface_linux.go:118-155 | from any valid device, applying added, updated, removed equals the full replacement, for distinct keys and disjoint prefixes |
| `Wg.ConvergenceExact` | internal/wg/iface_linux.go:118-155 | for distinct keys, the update leaves every desired peer exactly as wanted exactly when no prefix is wanted twice |
| `Wg.TargetIdempotent` | internal/wg/iface_linux.go:118-155 | replacing twice is replacing once |
| `Wg.SecondDiff` | internal/wg/diff.go:29-100 | a second pass adds and removes nothing, changes nothing, and updates exactly the peers the kernel could not hold as written |
| `Wg.NeverSettles` | internal/wg/diff.go:53-67 | whether the kernel can hold a peer as written is the same after a pass as before, so such peers are updated for ever |
| `Wg.LearnedEndpointIsRewritten` | internal/wg/diff.go:53-67 | a peer wanted without endpoint whose endpoint the kernel learned is updated again by the second pass, with no effect |
| `Wg.LearnedEndpointExample` | internal/wg/diff.go:53-67 | a concrete device and peer whose second diff is not empty |
| `Wg.Interface.Read` | internal/wg/iface_linux.go:118-126 | every kernel peer is read once, with its settings and all its prefixes |
| `Wg.Interface.ReadPeer` | internal/wg/iface_linux.go:226-238 | one peer with its endpoint, keepalive and each of its prefixes once |
| `Wg.AppliesFacts` | internal/wg/iface_linux.go:118-155 | whatever a call did of its entries, even part of one, the device stays valid; a success reaches the full replacement |
| `Wg.Interface.ApplyPeers` | internal/wg/iface_linux.go:118-155 | fails only if the kernel does; on success the device is the full replacement, on failure it holds a leading part of the entries or is untouched; an empty diff leaves it alone |
| `Tables.PeersForRight` | internal/topology/topology.go:99-220 | whatever a node wants from genuine registrations leads to the next hop of its destination |
| `Tables.AppliesKeepsRight` | internal/wg/iface_linux.go:133-145 | a call for such peers, cut short anywhere, leaves only such entries |
| `Tables.RightTableIsSafe` | internal/wg/types.go:25-28 | a table of such entries, whichever of them are there, routes every address to its next hop or not at all |
| `Tables.HubPeersListOnce` | internal/topology/topology.go:163-220 | a hub lists every address of a peer once |
| `Tables.SettlesExactly` | internal/topology/topology.go:120-197 | of what the topology wants, the kernel can hold as written exactly: hubs whose keepalive is whole 16-bit seconds (at a spoke also: if the overlay is written masked), and those spokes of a hub for which it has neither endpoint nor keepalive |
| `Tables.SecondPass` | internal/wg/diff.go:29-100 | a second pass of a node adds, removes and changes nothing and lists as updated exactly the peers that do not settle; in particular each spoke of a hub whose endpoint was learned from a handshake |
| `Netpolicy.WellFormedParses` | internal/netpolicy/netpolicy.go:67-86 | a validated document always compiles |
| `Netpolicy.GroupMembers` | internal/netpolicy/netpolicy.go:76-86 | fails exactly when an address does not parse; else each group lists exactly its agents' addresses |
| `Netpolicy.ExpandGroups` | internal/netpolicy/netpolicy.go:100-119 | adds exactly the pairs of different members of two groups, each once |
| `Netpolicy.ExpandAcl` | internal/netpolicy/netpolicy.go:97-122 | adds exactly the pairs one rule covers |
| `Netpolicy.ExpandAcls` | internal/netpolicy/netpolicy.go:91-123 | afterwards the allow and deny sets are exactly the pairs covered by allow and by other rules |
| `Netpolicy.CollectHubIPs` | internal/netpolicy/netpolicy.go:130-137 | all hub addresses in order, failing exactly when one does not parse |
| `Netpolicy.SortRules` | internal/netpolicy/netpolicy.go:148-155 | the sorted, repetition-free list of the collected pairs |
| `Netpolicy.Compile` | internal/netpolicy/netpolicy.go:67-155 | succeeds exactly when CIDR and addresses parse; the lists hold exactly the covered pairs, none of an address with itself, ascending by source and then destination without repetition, and all hub addresses, ascending |
| `Netpolicy.BuildRules` | internal/netpolicy/firewall_linux.go:138-165 | hub accepts, denies, allows, default deny, return, in this order |
| `Netpolicy.ChainMeaning` | internal/netpolicy/firewall_linux.go:138-165 | the chain's first match is what the document declares: hubs accept, deny over allow, default deny inside the overlay, return outside; overlay traffic never falls through |
| `Netpolicy.PartialChain` | internal/netpolicy/firewall_linux.go:62-71 | a chain filled part of the way may leave a packet undecided but never decides it differently |
| `Netpolicy.CanonicalCompilation` | internal/netpolicy/netpolicy.go:125-138 | documents with the same overlay, hub addresses and covered pairs compile to identical sequences |
| `Firewall.Firewall.EnsureChain` | internal/netpolicy/firewall_linux.go:102-114 | on success the chain exists, unchanged if it did; on failure nothing changes |
| `Firewall.JumpMeaning` | internal/netpolicy/firewall_linux.go:116-118 | the rule the agent puts into FORWARD, read as iptables reads it, sends to the chain SEINE-FWD exactly the packets that enter and leave by the agent's interface |
| `Firewall.Firewall.EnsureForwardJump` | internal/netpolicy/firewall_linux.go:120-133 | on success FORWARD has the jump, added in front only if missing; on failure nothing changes |
| `Firewall.Firewall.Reconcile` | internal/netpolicy/firewall_linux.go:53-79 | fails only if an iptables call does; success leaves the jump and exactly the built chain; a failure leaves one of the states between its calls |
| `Firewall.Firewall.Teardown` | internal/netpolicy/firewall_linux.go:84-100 | removes at most the jump and the chain; if every call succeeds, both are gone |
| `Firewall.StepKeepsSound` | internal/netpolicy/firewall_linux.go:53-133 | every call, failing or not, keeps at most one jump, never one to a missing chain, and the other rules in order |
| `Firewall.RunKeepsSound` | internal/netpolicy/firewall_linux.go:53-133 | so does every run, also with other programs editing FORWARD in between |
| `Firewall.Lifecycle` | internal/netpolicy/firewall_linux.go:53-133 | FORWARD is always the original list with at most the jump in front; a success leaves its chain exactly, a clean teardown the original list and no chain |
| `Firewall.ReconcileLeads` | internal/netpolicy/firewall_linux.go:120-133 | a successful Reconcile leaves the jump first exactly when it found it missing or first |
| `Firewall.EnforcedExactly` | internal/netpolicy/firewall_linux.go:14-17 | the chain's verdict on a packet stands whatever other programs' rules and the policy of FORWARD are exactly when the first rule of FORWARD that could decide sends it to the chain |
| `Firewall.LeadsOnlyFirst` | internal/netpolicy/firewall_linux.go:120-133 | for packets of the agent's interface that is so exactly when FORWARD starts with the jump, unless others use the chain too |
| `Firewall.OthersUnaffected` | internal/netpolicy/firewall_linux.go:14-17 | packets of other interfaces fare as if the agent had added nothing |
| `Firewall.JumpBehindOthers` | docs/internal/netpolicy.md:125-127 | a run, with a rule inserted before the jump between two successful Reconciles, after which a packet that the chain drops can pass |
| `Firewall.RunEnforces` | internal/netpolicy/firewall_linux.go:53-133 | through any run of failing calls and of foreign edits that leave the jump in its place, after a successful Reconcile FORWARD starts with the jump and the chain is the built one |
| `Forwarding.PartialViewsAreSafe` | internal/topology/topology.go:132-220 | nodes that see any, possibly different, parts of the registry have fewer routes, never other ones |
| `Forwarding.TunnelHopMeaning` | internal/wg/types.go:25-28 | a hop happens exactly if the sender's AllowedIPs give the destination to the receiver's key and the receiver's give the source to the sender's |
| `Forwarding.HopFollowsTopology` | internal/topology/topology.go:99-220 | whichever of their routes the nodes have, an accepted hop from a spoke goes to its hub, from a hub to the next hop of the destination's owner |
| `Forwarding.LoopFreedom` | internal/topology/topology.go:132-220 | with any part of the right routes on each node and any filters, every packet stops within three tunnel hops, is handed over only at the destination's owner and never strays |
| `Forwarding.LoopFreedomOfViews` | internal/topology/topology.go:132-220 | in particular for any, possibly different, subsets of the registrations visible at each node |
| `Forwarding.CoveredByName` | internal/netpolicy/netpolicy.go:88-123 | coverage of an address pair is coverage of the two spokes' groups |
| `Forwarding.ChainDecides` | internal/spec/types.go:59-64 | between two declared nodes the chain accepts exactly what the policy permits and drops the rest |
| `Forwarding.PolicyDecides` | internal/spec/types.go:59-64 | so does every FORWARD list that enforces the chain |
| `Forwarding.EndToEnd` | internal/topology/topology.go:99-220 | in a converged network a packet between two nodes has one fate: delivered within three hops exactly when permitted, else dropped by the first hub |
| `Store.ReplayMeaning` | internal/store/store.go:100-151 | after any statements a name's row has the identity of its last registration, the creation time of its first, and the last endpoint and sighting under the current id |
| `Store.Store.UpsertAgent` | internal/store/store.go:100-123 | inserts, or replaces all but the creation time; refused exactly when another name has the id |
| `Store.Store.AuthenticateByTokenHash` | internal/store/store.go:134-138 | a row with the digest, or nothing exactly when there is none |
| `Store.Store.UpdateHeartbeat` | internal/store/store.go:142-151 | touches exactly the rows with the id; an empty endpoint keeps the stored one |
| `Store.Store.ListAgents` | internal/store/store.go:154-170 | every row, once, in the order of the names |
| `Store.NameLessMeaning` | internal/store/store.go:154-155 | the order of names: a shorter beginning first, else the smaller character where they first differ |
| `ControlPlane.ResolveRole` | internal/controlplane/spec.go:19-30 | hub exactly for declared hubs, spoke exactly for the other declared names |
| `ControlPlane.Admit` | internal/controlplane/server.go:70-122 | a registration is admitted exactly with a name, a key, the bootstrap token, a loaded document declaring the name, and generated id and token; every refusal exactly for its reason; the row has the request's name and key, and its endpoint or, for a hub that names none, the one declared for that hub |
| `ControlPlane.HubGetsOwnEndpoint` | internal/controlplane/server.go:93-102 | a hub that names no endpoint is stored with that of the first hub declared under its name |
| `ControlPlane.Server.Register` | internal/controlplane/server.go:70-133 | refusals change nothing; an admitted row is stored and its token returned |
| `ControlPlane.BearerRoundTrip` | internal/controlplane/auth.go:99-115 | of the headers an agent sends the server reads its token, trimmed; a generated token just as it was issued; nothing exactly for an empty one |
| `ControlPlane.HeaderMeaning` | internal/controlplane/auth.go:99-115 | the bearer scheme counts in upper and lower case; without one, or without a token, the other header is read |
| `ControlPlane.TrimSpaceMeaning` | internal/controlplane/auth.go:99-115 | trimming takes white space off both ends and nothing else |
| `ControlPlane.Server.Authenticate` | internal/controlplane/auth.go:71-115 | rejected exactly when the headers carry no token or no row has its digest; else the caller is such a row |
| `ControlPlane.Server.Heartbeat` | internal/controlplane/server.go:137-185 | updates the caller's row and returns the declared part of the table; without a document, nothing changes |
| `ControlPlane.ResponseMeaning` | internal/controlplane/server.go:158-179 | by name, a response holds exactly the declared rows with their key, address, role and endpoint, the caller's own endpoint as just reported |
| `ControlPlane.OverrideIsRedundant` | internal/controlplane/server.go:166-170 | right after the caller's own update the override changes nothing |
| `Protocol.RunKeepsInv` | internal/controlplane/server.go:104-185 | over every interleaving rows replay the log, digests belong to the latest tokens, and ids identify names in the table and in flight |
| `Protocol.RegistryFollowsHistory` | internal/store/store.go:100-151 | at every moment of every run each row is the one its history prescribes |
| `Protocol.TokenUniqueness` | internal/controlplane/auth.go:85-92 | a token authenticates as a name exactly when it is the one most recently issued to it, and never as two names |
| `Protocol.OldTokensRejected` | internal/store/store.go:97-114 | a token followed by a later one for the same name authenticates as nobody |
| `Protocol.ReregistrationMakesStale` | internal/store/store.go:108-114 | after its name registers again no row carries the id of a heartbeat in flight |
| `Protocol.StaleForever` | internal/controlplane/auth.go:51-59 | and none ever will again |
| `Protocol.InFlightIsolation` | internal/controlplane/server.go:149-170 | from then on, at every moment of every run, that heartbeat's update changes no row and its response shows stored endpoints only |
| `Protocol.HubEndpointInvariant` | internal/controlplane/server.go:93-102 | under one well-formed document every reachable table gives each registered hub an endpoint |
| `Protocol.HubEndpointOrigin` | internal/controlplane/server.go:93-102 | under one document, at every moment of every run, a registered hub's endpoint is its own declared one or one reported under its name |
| `Protocol.NoMissingEndpoint` | internal/topology/topology.go:154-161 | so no response of a reachable table makes a peer computation fail for a missing endpoint |
| `Watcher.Parse` | internal/spec/parse.go:15-30 | a document comes out exactly when it decodes and, with defaults, is well formed; it is the decoded one with the defaults in its unset fields |
| `Watcher.Watcher.Current` | internal/specsource/watcher.go:83-90 | succeeds exactly when there is a cached document, which is well formed; else the last error |
| `Watcher.Watcher.PullOnce` | internal/specsource/watcher.go:129-163 | failures keep the last good document; a success caches document and commit of one pull and signals a changed commit, as a write step and a send step |
| `Watcher.NoLostUpdate` | internal/specsource/watcher.go:143-161 | in every interleaving with one consumer, which may receive again before it reads, a cached commit other than the one last read has a signal queued, a send pending or a read owed |
| `Watcher.FirstSpecNotMissed` | internal/agentcore/agent.go:338-354 | a consumer waiting for its first document is due a signal once there is one, commits being non-empty |
| `Watcher.FirstWriteAnnounced` | internal/specsource/watcher.go:143-161 | the first document is announced exactly when its commit is not empty, as every Git commit is |
| `Watcher.CacheSafety` | internal/specsource/watcher.go:83-163 | once there is a cached document there always is; it is well formed and is the content of a pull that found its commit |
| `Watcher.RunLoop` | internal/specsource/watcher.go:100-125 | the delay after a success is the interval, after the k-th failure in a row, in range, min(MinBackoff * 2^(k-1), MaxBackoff) |
| `Watcher.BackoffFormula` | internal/specsource/watcher.go:103-118 | in range the backoff after k failures is min(MinBackoff * 2^k, MaxBackoff), and doubling never wraps |
| `Watcher.BackoffBreaks` | internal/specsource/watcher.go:113-117 | out of range a streak of at most 63 failures breaks the formula |
| `Watcher.BackoffExact` | internal/specsource/watcher.go:100-125 | the formula holds for every streak exactly when MinBackoff <= MaxBackoff < 2^62 |
| `Watcher.DelaysExact` | internal/specsource/watcher.go:100-125 | the delays of the loop are these whatever happens exactly in that range |
| `Agent.HeardMeaning` | internal/controlplane/server.go:158-179 | by name, the answer to a heartbeat holds exactly the declared rows, each with the key and endpoint the table has once the heartbeat is counted |
| `Agent.Agent.Register` | internal/agentcore/agent.go:314-334 | an issued token is kept in memory, where the server accepts it, also when it cannot be written to disk, and the row stored for it has the agent's name, key and advertised endpoint; refusals leave the agent as it was |
| `Agent.PutFacts` | internal/controlplane/server.go:113-125 | a stored registration opens its row for the token it was issued and touches no other |
| `Agent.Agent.PermanentRefusal` | internal/agentcore/agent.go:286-304 | the refusals that end the retry loop await every attempt |
| `Agent.Agent.LoadOrRegister` | internal/agentcore/agent.go:272-312 | a readable stored token is reused as is and an unreadable one is an error; without one, it succeeds exactly when there is a bootstrap token and some attempt gets a token and writes it, at the first such attempt, and then the server accepts it; a refusal for good ends it after one attempt, others never do |
| `Agent.Agent.Beat` | internal/agentcore/agent.go:425-428 | unauthenticated exactly when the server does not accept the token; else, with a document, an answer from the present table |
| `Agent.Agent.ApplyLocally` | internal/agentcore/agent.go:454-484 | each outcome tied to its cause: peers that cannot be computed, a kernel or iptables call that failed (with what it left), or done, with the kernel at its target and the policy reconciled |
| `Agent.Agent.ReconcileOnce` | internal/agentcore/agent.go:422-486 | every outcome of a pass, when it comes about and what it leaves; a rejected token leads to re-registration and leaves the machine alone, an accepted one to an answer that is followed |
| `Agent.HeardComputes` | internal/topology/topology.go:68-95 | if the table has, for every node this one depends on, a parseable key and for hubs an endpoint that resolves, every answer gives a peer set |
| `Agent.PutKeepsComputable` | internal/controlplane/server.go:113-125 | registering a node keeps the table computable for it |
| `Agent.MustBeDone` | internal/agentcore/agent.go:422-486 | on such a table, with a kernel and iptables that answer, a pass that is answered is done |
| `Agent.Agent.SelfHeal` | internal/agentcore/agent.go:422-486 | from any table and token, one pass if the token is accepted and two otherwise are answered and followed; on a computable table and a working machine the last is done: the kernel at its target, the policy reconciled |
| `Deployment.AnswerInstallable` | internal/agentcore/agent.go:454-463 | what a node computes from a genuine answer can always be installed |
| `Deployment.PassKeepsRight` | internal/agentcore/agent.go:454-484 | a pass, whatever its outcome and wherever it stopped, keeps every entry of the kernel leading to the next hop |
| `Deployment.LifeStaysRight` | internal/agentcore/agent.go:390-420 | so does every life of a node: passes, learned endpoints, foreign edits, restarts |
| `Deployment.ReachableRowsAreGenuine` | internal/controlplane/server.go:113-125 | if nodes register their own keys, every reachable table holds genuine keys |
| `Deployment.DeploymentLoopFree` | internal/topology/topology.go:132-220 | nodes at any point of any lives against genuine tables, also with devices left half-configured, form a loop-free network |
| `Deployment.RunIsLoopFree` | internal/agentcore/agent.go:422-463 | for every run of the protocol, with nodes reconciling, successfully or not, at moments of their own, packets never loop, stray or get misdelivered |
| `Deployment.DoneReachesTarget` | internal/agentcore/agent.go:454-463 | a pass that is done on a genuine answer leaves exactly the peers computed from it, whatever the kernel held before |
| `Deployment.DoneInstalls` | internal/agentcore/agent.go:454-463 | a pass that is done leaves in the kernel exactly the listed nodes this one depends on, each under its key: a hub at the address its row's endpoint resolves to with the document's keepalive in seconds, a spoke as the kernel had it |
| `Deployment.LifeInstalls` | internal/agentcore/agent.go:390-420 | so does every such pass in every life |
| `Deployment.DoneRoutes` | internal/agentcore/agent.go:454-463 | so on a table that lists everyone it leaves every expected route |
| `Deployment.DoneEnforces` | internal/agentcore/agent.go:476-484 | a pass that is done leaves a hub's policy in force exactly when nothing came before the jump |
| `Deployment.LifeStaysOrderly` | internal/netpolicy/firewall_linux.go:53-133 | nothing ever does in a life in which other programs leave the jump in its place |
| `Deployment.CompleteSite` | internal/agentcore/agent.go:390-420 | after such a last pass a node has every route and, on a hub, enforces the policy |
| `Deployment.DeploymentEndToEnd` | internal/agentcore/agent.go:422-486 | once every node's last pass is done on a table that lists everyone, and other programs leave the jump in its place, a packet has one fate: delivery within three hops exactly if the document permits it, else a drop at the first hub |
| `Deployment.RunEndToEnd` | internal/agentcore/agent.go:422-486 | the same for every run: whatever interleaving and whatever earlier passes led there |
| `Deployment.PassCompletes` | internal/agentcore/agent.go:422-486 | on a genuine table that lists everyone with hub endpoints that resolve, a pass on a working machine is done |
| `Deployment.RunHubsResolve` | internal/controlplane/server.go:93-102 | under one document a reachable table never lacks a hub's endpoint, so it is enough that the stated ones resolve |
| `Witness.EndToEndApplies` | internal/topology/topology.go:99-220 | two hubs, two spokes and one rule, registered and reconciled, meet the assumptions of the end-to-end theorem; a packet takes three hops one way and is dropped by the first hub the other way |

## Left out

- cmd/seine-agent and cmd/seine-server: flag parsing and wiring.
- internal/gitsource: a pull is a success with commit and content, or a failure.
- YAML decoding and Duration marshalling: `Watcher.Outside.decode` stands for the decoder.
- DNS, host:port and number parsing, key parsing: fields of `Spec.Lib`. SHA-256 and the random source: parameters.
- IPv6: addresses are 32-bit; the firewall itself is IPv4 only.
- netlink link, address, MTU and ip_forward handling, listen ports and handshakes, beyond the endpoints they teach the kernel.
- SQLite and gRPC transport failures, and telemetry: a call reaches the server and its statements execute.
- Nil documents and nil registry entries, which the callers cannot produce.
- Timing of tickers, contexts and timeouts: loops are sequences of steps.
- Nodes on different commits: delivery and loop freedom are for one shared document.
- PrefixSetsEqual: sorts by number rather than by rendered text; `Sequences.SortedUnique` shows that any total order decides the same equality.
- SortRules: works on values instead of sorting a slice in place, so aliasing of the slice is not captured; the same holds for the hub list in Compile.
- UpsertAgent: does not model the default for a zero creation time, which Register never sends.
- KernelKeepalive: models an interval above 65535 s as wrapping to 16 bits.
- FirstSpecNotMissed: assumes non-empty commits, which the Git source always delivers (internal/gitsource/source.go:136).
- Validate: the wording and paths of the joined messages are reduced to problem kinds.
