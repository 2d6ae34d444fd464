/**
 `Document.Validate`: the accumulating validator reports no problem exactly when
 the document is well formed, although it skips entries and consults maps that it
 fills as it goes.
 */
module Validate {
  import opened Net
  import opened Sequences
  import opened Spec

  datatype Problem =
    | BadApiVersion | BadKind | BadName | BadCidr | BadMtu | BadHubPort | NoHubs
    | BadGroup(i: nat) | DuplicateGroup(i: nat)
    | BadNodeName(raw: string) | DuplicateNodeName(raw: string)
    | BadAddress(raw: string) | OutsideOverlay(raw: string) | DuplicateAddress(raw: string)
    | NoEndpoint(hub: string) | BadEndpoint(hub: string)
    | NoHub(agent: string) | UnknownHub(agent: string)
    | UnknownGroup(group: string) | RepeatedGroup(group: string)
    | BadAction(rule: nat) | EmptyFrom(rule: nat) | EmptyTo(rule: nat)

  /** The maps the node loops share: node names by kind, tunnel addresses, hub names. */
  datatype Seen = Seen(names: map<string, string>, addrs: map<Addr, string>, hubs: set<string>)

  /** What `seen` holds after the nodes listed in `names` and `raws`, none of which raised a problem. */
  ghost predicate Records(lib: Lib, seen: Seen, names: seq<string>, raws: seq<string>) {
    && seen.names.Keys == Elements(names)
    && (forall a :: a in seen.addrs <==> exists raw <- raws :: lib.parseAddr(raw) == Some(a))
  }

  lemma WellFormedNodesSnoc(lib: Lib, overlay: Prefix, names: seq<string>, raws: seq<string>, n: string, raw: string)
    ensures WellFormedNodes(lib, overlay, names + [n], raws + [raw]) <==>
            && WellFormedNodes(lib, overlay, names, raws)
            && ValidName(n) && n !in names
            && AddressInside(lib, overlay, raw)
            && forall r <- raws :: lib.parseAddr(r) != lib.parseAddr(raw)
  {
    var ns, rs := names + [n], raws + [raw];
    if WellFormedNodes(lib, overlay, ns, rs) {
      assert ns[|names|] == n && rs[|raws|] == raw;
      assert forall i | 0 <= i < |names| :: names[i] == ns[i];
      assert forall i | 0 <= i < |raws| :: raws[i] == rs[i];
    }
  }

  /** Well-formed nodes have well-formed hubs. */
  lemma NodesPrefix(lib: Lib, overlay: Prefix, hubs: seq<Hub>, agents: seq<Agent>)
    requires WellFormedNodes(lib, overlay, NodeNames(hubs, agents), NodeIPs(hubs, agents))
    ensures WellFormedNodes(lib, overlay, NodeNames(hubs, []), NodeIPs(hubs, []))
  {
    var names, raws := NodeNames(hubs, agents), NodeIPs(hubs, agents);
    assert NodeNames(hubs, []) == names[..|hubs|];
    assert NodeIPs(hubs, []) == raws[..|hubs|];
  }

  lemma HubNamesDeclared(hubs: seq<Hub>)
    ensures forall n :: n in NodeNames(hubs, []) <==> DeclaresHub(hubs, n)
  {
    forall h | h in hubs
      ensures h.name in NodeNames(hubs, [])
    {
      var i :| 0 <= i < |hubs| && hubs[i] == h;
      assert NodeNames(hubs, [])[i] == h.name;
    }
  }

  /** The address is one of the 2^(32 - bits) that start at the masked address of the prefix. */
  ghost predicate InInterval(p: Prefix, a: Addr) {
    Masked(p).addr <= a < Masked(p).addr + Pow2(32 - p.bits)
  }

  /** The `checkAddrInOverlay` closure; without an overlay the containment test is skipped. */
  method CheckAddress(lib: Lib, overlay: Option<Prefix>, raw: string, addrs: map<Addr, string>)
    returns (errs: seq<Problem>, addrs': map<Addr, string>)
    ensures overlay.Some? ==>
              (errs == [] <==> AddressInside(lib, overlay.value, raw) && lib.parseAddr(raw).value !in addrs)
    ensures BadAddress(raw) in errs <==> lib.parseAddr(raw).None?
    ensures OutsideOverlay(raw) in errs <==>
              lib.parseAddr(raw).Some? && overlay.Some? && !InInterval(overlay.value, lib.parseAddr(raw).value)
    ensures DuplicateAddress(raw) in errs <==> lib.parseAddr(raw).Some? && lib.parseAddr(raw).value in addrs
    ensures forall e <- errs :: e == BadAddress(raw) || e == OutsideOverlay(raw) || e == DuplicateAddress(raw)
    ensures errs == [] ==> lib.parseAddr(raw).Some? && addrs'.Keys == addrs.Keys + {lib.parseAddr(raw).value}
  {
    errs, addrs' := [], addrs;
    var parsed := lib.parseAddr(raw);
    if overlay.Some? && parsed.Some? {
      ContainsExactly(overlay.value, parsed.value);
    }
    if parsed.None? {
      return [BadAddress(raw)], addrs;
    }
    if overlay.Some? && !Contains(overlay.value, parsed.value) {
      errs := errs + [OutsideOverlay(raw)];
    }
    if parsed.value in addrs {
      errs := errs + [DuplicateAddress(raw)];
    } else {
      addrs' := addrs[parsed.value := raw];
    }
  }

  method CheckGroups(declared: seq<string>) returns (errs: seq<Problem>, groups: set<string>)
    ensures errs == [] <==> (forall g <- declared :: ValidName(g)) && NoDuplicates(declared)
    ensures errs == [] ==> groups == Elements(declared)
  {
    errs, groups := [], {};
    for i := 0 to |declared|
      invariant errs == [] <==> (forall g <- declared[..i] :: ValidName(g)) && NoDuplicates(declared[..i])
      invariant errs == [] ==> groups == Elements(declared[..i])
    {
      var g := declared[i];
      assert declared[..i + 1] == declared[..i] + [g];
      assert declared[..i + 1][i] == g;
      assert forall k | 0 <= k < i :: declared[..i + 1][k] == declared[..i][k];
      if !ValidName(g) {
        errs := errs + [BadGroup(i)];
        continue;
      }
      if g in groups {
        errs := errs + [DuplicateGroup(i)];
        continue;
      }
      groups := groups + {g};
    }
    assert declared[..|declared|] == declared;
  }

  /** The name checks of both loops; a new valid name is recorded with its kind. */
  method CheckName(name: string, kind: string, before: map<string, string>)
    returns (errs: seq<Problem>, names: map<string, string>)
    ensures errs == if !ValidName(name) then [BadNodeName(name)]
                    else if name in before then [DuplicateNodeName(name)] else []
    ensures names == if errs == [] then before[name := kind] else before
  {
    errs, names := [], before;
    if !ValidName(name) {
      errs := errs + [BadNodeName(name)];
    } else if name in names {
      errs := errs + [DuplicateNodeName(name)];
    } else {
      names := names[name := kind];
    }
  }

  /** `validateEndpoint`: a host and a port in range; the name is not resolved. */
  function CheckEndpoint(lib: Lib, hub: string, ep: string): (errs: seq<Problem>)
    ensures errs == (if ValidEndpoint(lib, ep) then [] else [BadEndpoint(hub)])
  {
    var parts := lib.splitHostPort(ep);
    if parts.None? then [BadEndpoint(hub)]
    else if parts.value.0 == "" then [BadEndpoint(hub)]
    else
      var p := lib.atoi(parts.value.1);
      if p.None? || p.value < 1 || p.value > 65535 then [BadEndpoint(hub)] else []
  }

  /** What one hub must satisfy given the nodes before it. */
  ghost predicate GoodHub(lib: Lib, overlay: Prefix, seen: Seen, h: Hub) {
    && ValidName(h.name) && h.name !in seen.names
    && h.endpoint != "" && ValidEndpoint(lib, h.endpoint)
    && AddressInside(lib, overlay, h.tunnelIP) && lib.parseAddr(h.tunnelIP).value !in seen.addrs
  }

  /** The body of the hub loop. */
  method CheckHub(lib: Lib, overlay: Option<Prefix>, h: Hub, before: Seen) returns (errs: seq<Problem>, seen: Seen)
    ensures overlay.Some? ==> (errs == [] <==> GoodHub(lib, overlay.value, before, h))
    ensures errs == [] ==>
              && lib.parseAddr(h.tunnelIP).Some?
              && seen.names.Keys == before.names.Keys + {h.name}
              && seen.hubs == before.hubs + {h.name}
              && seen.addrs.Keys == before.addrs.Keys + {lib.parseAddr(h.tunnelIP).value}
  {
    var nameErrs, names := CheckName(h.name, "hub", before.names);
    var endpointErrs := if h.endpoint == "" then [NoEndpoint(h.name)] else CheckEndpoint(lib, h.name, h.endpoint);
    var addrErrs, addrs := CheckAddress(lib, overlay, h.tunnelIP, before.addrs);
    errs := nameErrs + endpointErrs + addrErrs;
    seen := Seen(names, addrs, if nameErrs == [] then before.hubs + {h.name} else before.hubs);
  }

  /** Recording one more node that raised no problem. */
  lemma RecordsSnoc(lib: Lib, seen: Seen, seen': Seen, names: seq<string>, raws: seq<string>, n: string, raw: string)
    requires Records(lib, seen, names, raws) && lib.parseAddr(raw).Some?
    requires seen'.names.Keys == seen.names.Keys + {n}
    requires seen'.addrs.Keys == seen.addrs.Keys + {lib.parseAddr(raw).value}
    ensures Records(lib, seen', names + [n], raws + [raw])
  {
  }

  ghost predicate EndpointsOk(lib: Lib, hubs: seq<Hub>) {
    forall h <- hubs :: h.endpoint != "" && ValidEndpoint(lib, h.endpoint)
  }

  method CheckHubs(lib: Lib, overlay: Option<Prefix>, hubs: seq<Hub>) returns (errs: seq<Problem>, seen: Seen)
    ensures overlay.Some? ==>
              (errs == [] <==> WellFormedNodes(lib, overlay.value, NodeNames(hubs, []), NodeIPs(hubs, [])) &&
                               EndpointsOk(lib, hubs))
    ensures errs == [] && overlay.Some? ==>
              Records(lib, seen, NodeNames(hubs, []), NodeIPs(hubs, [])) && seen.hubs == Elements(NodeNames(hubs, []))
  {
    errs, seen := [], Seen(map[], map[], {});
    for i := 0 to |hubs|
      invariant overlay.Some? ==>
                  (errs == [] <==>
                    && WellFormedNodes(lib, overlay.value, NodeNames(hubs[..i], []), NodeIPs(hubs[..i], []))
                    && EndpointsOk(lib, hubs[..i]))
      invariant errs == [] && overlay.Some? ==>
                  && Records(lib, seen, NodeNames(hubs[..i], []), NodeIPs(hubs[..i], []))
                  && seen.hubs == Elements(NodeNames(hubs[..i], []))
    {
      ghost var before, good := seen, errs == [];
      var more, next := CheckHub(lib, overlay, hubs[i], seen);
      errs, seen := errs + more, next;
      HubsSnoc(lib, hubs, i);
      ghost var names, raws := NodeNames(hubs[..i], []), NodeIPs(hubs[..i], []);
      if overlay.Some? {
        WellFormedNodesSnoc(lib, overlay.value, names, raws, hubs[i].name, hubs[i].tunnelIP);
        if good && more == [] {
          RecordsSnoc(lib, before, seen, names, raws, hubs[i].name, hubs[i].tunnelIP);
        }
      }
    }
    assert hubs[..|hubs|] == hubs;
  }

  lemma HubsSnoc(lib: Lib, hubs: seq<Hub>, i: nat)
    requires i < |hubs|
    ensures NodeNames(hubs[..i + 1], []) == NodeNames(hubs[..i], []) + [hubs[i].name]
    ensures NodeIPs(hubs[..i + 1], []) == NodeIPs(hubs[..i], []) + [hubs[i].tunnelIP]
    ensures EndpointsOk(lib, hubs[..i + 1]) <==>
            EndpointsOk(lib, hubs[..i]) && hubs[i].endpoint != "" && ValidEndpoint(lib, hubs[i].endpoint)
  {
    assert hubs[..i + 1] == hubs[..i] + [hubs[i]];
  }

  method CheckAgentGroups(groups: set<string>, listed: seq<string>) returns (errs: seq<Problem>)
    ensures errs == [] <==> (forall g <- listed :: g in groups) && NoDuplicates(listed)
    ensures forall g :: UnknownGroup(g) in errs <==> g in listed && g !in groups
    ensures forall g :: RepeatedGroup(g) in errs <==> exists j | 0 <= j < |listed| :: listed[j] == g && g in listed[..j]
    ensures forall e <- errs :: e.UnknownGroup? || e.RepeatedGroup?
  {
    errs := [];
    var seenG := {};
    for j := 0 to |listed|
      invariant errs == [] <==> (forall g <- listed[..j] :: g in groups) && NoDuplicates(listed[..j])
      invariant seenG == Elements(listed[..j])
      invariant forall g :: UnknownGroup(g) in errs <==> g in listed[..j] && g !in groups
      invariant forall g :: RepeatedGroup(g) in errs <==> exists k | 0 <= k < j :: listed[k] == g && g in listed[..k]
      invariant forall e <- errs :: e.UnknownGroup? || e.RepeatedGroup?
    {
      var g := listed[j];
      assert listed[..j + 1] == listed[..j] + [g];
      assert listed[..j + 1][j] == g;
      assert forall k | 0 <= k < j :: listed[..j + 1][k] == listed[..j][k];
      if g !in groups {
        errs := errs + [UnknownGroup(g)];
      }
      if g in seenG {
        errs := errs + [RepeatedGroup(g)];
      }
      seenG := seenG + {g};
    }
    assert listed[..|listed|] == listed;
  }

  /** `a` is well formed as far as `CheckAgents` can see from the hub and group sets. */
  ghost predicate GoodAgent(hubs: set<string>, groups: set<string>, a: Agent) {
    && a.hub in hubs
    && (forall g <- a.groups :: g in groups)
    && NoDuplicates(a.groups)
  }

  /** The body of the agent loop. */
  method CheckAgent(lib: Lib, overlay: Option<Prefix>, groups: set<string>, a: Agent, before: Seen)
    returns (errs: seq<Problem>, seen: Seen)
    ensures seen.hubs == before.hubs
    ensures overlay.Some? && "" !in before.hubs ==>
              (errs == [] <==>
                && ValidName(a.name) && a.name !in before.names
                && AddressInside(lib, overlay.value, a.tunnelIP) && lib.parseAddr(a.tunnelIP).value !in before.addrs
                && GoodAgent(before.hubs, groups, a))
    ensures errs == [] ==>
              && lib.parseAddr(a.tunnelIP).Some?
              && seen.names.Keys == before.names.Keys + {a.name}
              && seen.addrs.Keys == before.addrs.Keys + {lib.parseAddr(a.tunnelIP).value}
  {
    var nameErrs, names := CheckName(a.name, "agent", before.names);
    var addrErrs, addrs := CheckAddress(lib, overlay, a.tunnelIP, before.addrs);
    var hubErrs := if a.hub == "" then [NoHub(a.name)] else if a.hub !in before.hubs then [UnknownHub(a.name)] else [];
    var groupErrs := CheckAgentGroups(groups, a.groups);
    errs := nameErrs + addrErrs + hubErrs + groupErrs;
    seen := Seen(names, addrs, before.hubs);
  }

  ghost predicate GoodAgents(hubs: set<string>, groups: set<string>, agents: seq<Agent>) {
    forall a <- agents :: GoodAgent(hubs, groups, a)
  }

  lemma AgentsSnoc(hubs: seq<Hub>, agents: seq<Agent>, i: nat, hubNames: set<string>, groups: set<string>)
    requires i < |agents|
    ensures NodeNames(hubs, agents[..i + 1]) == NodeNames(hubs, agents[..i]) + [agents[i].name]
    ensures NodeIPs(hubs, agents[..i + 1]) == NodeIPs(hubs, agents[..i]) + [agents[i].tunnelIP]
    ensures GoodAgents(hubNames, groups, agents[..i + 1]) <==>
            GoodAgents(hubNames, groups, agents[..i]) && GoodAgent(hubNames, groups, agents[i])
  {
    assert agents[..i + 1] == agents[..i] + [agents[i]];
  }

  /** The agent loop, after hubs that raised no problem if `clean`. */
  method CheckAgents(lib: Lib, overlay: Option<Prefix>, hubs: seq<Hub>, agents: seq<Agent>, groups: set<string>,
                     start: Seen, ghost clean: bool)
    returns (errs: seq<Problem>)
    requires clean ==> overlay.Some? && "" !in start.hubs && Records(lib, start, NodeNames(hubs, []), NodeIPs(hubs, []))
    requires clean ==> WellFormedNodes(lib, overlay.value, NodeNames(hubs, []), NodeIPs(hubs, []))
    ensures clean ==>
              (errs == [] <==> WellFormedNodes(lib, overlay.value, NodeNames(hubs, agents), NodeIPs(hubs, agents)) &&
                               GoodAgents(start.hubs, groups, agents))
  {
    errs := [];
    var seen := start;
    for i := 0 to |agents|
      invariant seen.hubs == start.hubs
      invariant clean ==>
                  (errs == [] <==>
                    && WellFormedNodes(lib, overlay.value, NodeNames(hubs, agents[..i]), NodeIPs(hubs, agents[..i]))
                    && GoodAgents(start.hubs, groups, agents[..i]))
      invariant errs == [] && clean ==> Records(lib, seen, NodeNames(hubs, agents[..i]), NodeIPs(hubs, agents[..i]))
    {
      ghost var before, good := seen, errs == [];
      var more, next := CheckAgent(lib, overlay, groups, agents[i], seen);
      errs, seen := errs + more, next;
      AgentsSnoc(hubs, agents, i, start.hubs, groups);
      ghost var names, raws := NodeNames(hubs, agents[..i]), NodeIPs(hubs, agents[..i]);
      if clean {
        WellFormedNodesSnoc(lib, overlay.value, names, raws, agents[i].name, agents[i].tunnelIP);
        if good && more == [] {
          RecordsSnoc(lib, before, seen, names, raws, agents[i].name, agents[i].tunnelIP);
        }
      }
    }
    assert agents[..|agents|] == agents;
  }

  method CheckListed(groups: set<string>, listed: seq<string>) returns (errs: seq<Problem>)
    ensures errs == [] <==> forall g <- listed :: g in groups
    ensures forall e <- errs :: e.UnknownGroup?
  {
    errs := [];
    for j := 0 to |listed|
      invariant errs == [] <==> forall k | 0 <= k < j :: listed[k] in groups
      invariant forall e <- errs :: e.UnknownGroup?
    {
      if listed[j] !in groups {
        errs := errs + [UnknownGroup(listed[j])];
      }
    }
  }

  method CheckAcls(groups: set<string>, acls: seq<Acl>, ghost declared: seq<string>) returns (errs: seq<Problem>)
    ensures groups == Elements(declared) ==> (errs == [] <==> forall r <- acls :: WellFormedAcl(declared, r))
    ensures forall i: nat :: BadAction(i) in errs <==> i < |acls| && acls[i].action !in {"allow", "deny"}
    ensures forall i: nat :: EmptyFrom(i) in errs <==> i < |acls| && acls[i].from == []
    ensures forall i: nat :: EmptyTo(i) in errs <==> i < |acls| && acls[i].to == []
  {
    errs := [];
    for i := 0 to |acls|
      invariant groups == Elements(declared) ==>
                  (errs == [] <==> forall k | 0 <= k < i :: WellFormedAcl(declared, acls[k]))
      invariant forall k: nat :: BadAction(k) in errs <==> k < i && acls[k].action !in {"allow", "deny"}
      invariant forall k: nat :: EmptyFrom(k) in errs <==> k < i && acls[k].from == []
      invariant forall k: nat :: EmptyTo(k) in errs <==> k < i && acls[k].to == []
    {
      var r := acls[i];
      if r.action != ACTION_ALLOW && r.action != ACTION_DENY {
        errs := errs + [BadAction(i)];
      }
      if |r.from| == 0 {
        errs := errs + [EmptyFrom(i)];
      }
      if |r.to| == 0 {
        errs := errs + [EmptyTo(i)];
      }
      var more := CheckListed(groups, r.from);
      errs := errs + more;
      more := CheckListed(groups, r.to);
      errs := errs + more;
    }
  }

  method CheckEnvelope(lib: Lib, d: Document) returns (errs: seq<Problem>)
    ensures errs == [] <==> WellFormedEnvelope(d) && lib.parsePrefix(d.spec.cidr).Some?
    ensures BadApiVersion in errs <==> d.apiVersion != "seine.io/v1"
    ensures BadKind in errs <==> d.kind != "Network"
    ensures BadName in errs <==> !ValidName(d.name)
    ensures BadCidr in errs <==> lib.parsePrefix(d.spec.cidr).None?
    ensures BadMtu in errs <==> !(1280 <= d.spec.wireguard.mtu <= 1500)
    ensures BadHubPort in errs <==> !(1 <= d.spec.wireguard.hubListenPort <= 65535)
  {
    errs := [];
    if d.apiVersion != API_VERSION {
      errs := errs + [BadApiVersion];
    }
    if d.kind != KIND {
      errs := errs + [BadKind];
    }
    if !ValidName(d.name) {
      errs := errs + [BadName];
    }
    if lib.parsePrefix(d.spec.cidr).None? {
      errs := errs + [BadCidr];
    }
    if d.spec.wireguard.mtu < 1280 || d.spec.wireguard.mtu > 1500 {
      errs := errs + [BadMtu];
    }
    if d.spec.wireguard.hubListenPort < 1 || d.spec.wireguard.hubListenPort > 65535 {
      errs := errs + [BadHubPort];
    }
  }

  /** The hub and agent loops together. */
  method CheckNodes(lib: Lib, overlay: Option<Prefix>, hubs: seq<Hub>, agents: seq<Agent>, groups: set<string>,
                    ghost declared: seq<string>)
    returns (errs: seq<Problem>)
    ensures overlay.Some? && groups == Elements(declared) ==>
              (errs == [] <==>
                && WellFormedNodes(lib, overlay.value, NodeNames(hubs, agents), NodeIPs(hubs, agents))
                && EndpointsOk(lib, hubs)
                && forall a <- agents :: WellFormedAgent(hubs, declared, a))
  {
    var hubErrs, seen := CheckHubs(lib, overlay, hubs);
    ghost var clean := overlay.Some? && hubErrs == [];
    if clean {
      assert forall n <- seen.hubs :: ValidName(n);
    }
    var agentErrs := CheckAgents(lib, overlay, hubs, agents, groups, seen, clean);
    errs := hubErrs + agentErrs;
    if clean && groups == Elements(declared) {
      HubNamesDeclared(hubs);
      SameAgents(hubs, agents, seen.hubs, groups, declared);
    } else if overlay.Some? && WellFormedNodes(lib, overlay.value, NodeNames(hubs, agents), NodeIPs(hubs, agents)) {
      NodesPrefix(lib, overlay.value, hubs, agents);
    }
  }

  lemma SameAgents(hubs: seq<Hub>, agents: seq<Agent>, names: set<string>, groups: set<string>, declared: seq<string>)
    requires groups == Elements(declared) && forall n :: n in names <==> DeclaresHub(hubs, n)
    ensures GoodAgents(names, groups, agents) <==> forall a <- agents :: WellFormedAgent(hubs, declared, a)
  {
    forall a | a in agents
      ensures GoodAgent(names, groups, a) <==> WellFormedAgent(hubs, declared, a)
    {
    }
  }

  /** `Validate`: the joined error is empty exactly for well-formed documents. */
  method Validate(lib: Lib, d: Document) returns (errs: seq<Problem>)
    ensures errs == [] <==> WellFormed(lib, d)
  {
    errs := CheckEnvelope(lib, d);
    var overlay := lib.parsePrefix(d.spec.cidr);
    var groupErrs, groups := CheckGroups(d.spec.groups);
    var nodeErrs := CheckNodes(lib, overlay, d.spec.hubs, d.spec.agents, groups, d.spec.groups);
    var aclErrs := CheckAcls(groups, d.spec.acls, d.spec.groups);
    errs := errs + groupErrs + nodeErrs + aclErrs;
    if |d.spec.hubs| == 0 {
      errs := errs + [NoHubs];
    }
  }
}
