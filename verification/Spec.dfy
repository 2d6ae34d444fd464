/**
 The declarative network document: its types, its lookups and what it means for
 it to be well formed.  Fields that hold addresses, prefixes and endpoints stay
 text, as in the YAML file; `Lib` stands for the library functions that read them.
 */
module Spec {
  import opened Net
  import opened Sequences

  /**
   Library functions outside the repository: netip, net, strconv, wgtypes and the
   DNS resolver.  Every theorem holds for every choice of them.
   */
  datatype Lib = Lib(
    parseAddr: string -> Option<Addr>,
    parsePrefix: string -> Option<Prefix>,
    parseKey: string -> Option<Key>,
    splitHostPort: string -> Option<(string, string)>,
    atoi: string -> Option<int>,
    parseIP: string -> Option<nat>,
    lookupIP: string -> Option<seq<nat>>)

  const API_VERSION := "seine.io/v1"
  const KIND := "Network"
  const ACTION_ALLOW := "allow"
  const ACTION_DENY := "deny"
  const DEFAULT_MTU := 1420
  const DEFAULT_KEEPALIVE := 25_000_000_000 // nanoseconds
  const DEFAULT_HUB_PORT := 51820

  datatype Document = Document(apiVersion: string, kind: string, name: string, spec: Network)

  datatype Network = Network(
    cidr: string,
    wireguard: WireGuard,
    hubs: seq<Hub>,
    agents: seq<Agent>,
    groups: seq<string>,
    acls: seq<Acl>)

  /** `persistentKeepalive` is in nanoseconds. */
  datatype WireGuard = WireGuard(mtu: int, persistentKeepalive: int, hubListenPort: int)

  datatype Hub = Hub(name: string, endpoint: string, tunnelIP: string)

  datatype Agent = Agent(name: string, tunnelIP: string, hub: string, groups: seq<string>)

  datatype Acl = Acl(from: seq<string>, to: seq<string>, action: string)

  /** `ApplyDefaults`: zero-valued fields get the project defaults. */
  function ApplyDefaults(d: Document): (r: Document) {
    var wg := d.spec.wireguard;
    Document(
      if d.apiVersion == "" then API_VERSION else d.apiVersion,
      if d.kind == "" then KIND else d.kind,
      d.name,
      d.spec.(wireguard := WireGuard(
        if wg.mtu == 0 then DEFAULT_MTU else wg.mtu,
        if wg.persistentKeepalive == 0 then DEFAULT_KEEPALIVE else wg.persistentKeepalive,
        if wg.hubListenPort == 0 then DEFAULT_HUB_PORT else wg.hubListenPort)))
  }

  /**
   Applying defaults twice is applying them once; fields that were set stay, fields that were not get
   1420 bytes, 25 s and port 51820, and neither nodes nor policy are touched.
   */
  lemma DefaultsIdempotent(d: Document)
    ensures ApplyDefaults(ApplyDefaults(d)) == ApplyDefaults(d)
    ensures ApplyDefaults(d).spec.(wireguard := d.spec.wireguard) == d.spec && ApplyDefaults(d).name == d.name
    ensures var r, wg := ApplyDefaults(d), d.spec.wireguard;
            && (d.apiVersion in {"", "seine.io/v1"} <==> r.apiVersion == "seine.io/v1")
            && (d.kind in {"", "Network"} <==> r.kind == "Network")
            && (wg.mtu in {0, 1420} <==> r.spec.wireguard.mtu == 1420)
            && (wg.persistentKeepalive in {0, 25 * 1_000_000_000} <==>
                r.spec.wireguard.persistentKeepalive == 25 * 1_000_000_000)
            && (wg.hubListenPort in {0, 51820} <==> r.spec.wireguard.hubListenPort == 51820)
    ensures var r, wg := ApplyDefaults(d), d.spec.wireguard;
            && (d.apiVersion != "" ==> r.apiVersion == d.apiVersion) && (d.kind != "" ==> r.kind == d.kind)
            && (wg.mtu != 0 ==> r.spec.wireguard.mtu == wg.mtu)
            && (wg.persistentKeepalive != 0 ==> r.spec.wireguard.persistentKeepalive == wg.persistentKeepalive)
            && (wg.hubListenPort != 0 ==> r.spec.wireguard.hubListenPort == wg.hubListenPort)
  {
  }

  // ---------- names and endpoints ----------

  predicate LowerAlnum(c: char) {
    'a' <= c <= 'z' || '0' <= c <= '9'
  }

  /** A DNS-1123 label. */
  predicate ValidName(s: string) {
    && 1 <= |s| <= 63
    && LowerAlnum(s[0]) && LowerAlnum(s[|s| - 1])
    && forall i | 0 <= i < |s| :: LowerAlnum(s[i]) || s[i] == '-'
  }

  /** The class `[a-z0-9]`, by its ASCII codes. */
  ghost predicate LabelEnd(c: char) {
    97 <= c as int <= 122 || 48 <= c as int <= 57
  }

  /** The pattern `^[a-z0-9]([-a-z0-9]{0,61}[a-z0-9])?$`, part by part. */
  ghost predicate MatchesLabel(s: string) {
    && s != "" && LabelEnd(s[0])
    && (|s| > 1 ==>
          var middle := s[1..|s| - 1];
          |middle| <= 61 && (forall c <- middle :: c == '-' || LabelEnd(c)) && LabelEnd(s[|s| - 1]))
  }

  /** Valid names are those the pattern matches. */
  lemma NamePattern(s: string)
    ensures ValidName(s) <==> MatchesLabel(s)
  {
    if |s| > 1 {
      var middle := s[1..|s| - 1];
      forall i | 0 < i < |s| - 1
        ensures s[i] in middle
      {
        assert s[i] == middle[i - 1];
      }
      assert forall c <- middle :: c in s;
    }
  }

  predicate ValidEndpoint(lib: Lib, ep: string) {
    && lib.splitHostPort(ep).Some?
    && lib.splitHostPort(ep).value.0 != ""
    && lib.atoi(lib.splitHostPort(ep).value.1).Some?
    && 1 <= lib.atoi(lib.splitHostPort(ep).value.1).value <= 65535
  }

  // ---------- lookups ----------

  function FindHubIn(hubs: seq<Hub>, name: string): (r: Option<Hub>)
    ensures r.Some? ==> r.value in hubs && r.value.name == name
    ensures r.None? ==> forall h <- hubs :: h.name != name
  {
    if hubs == [] then None
    else if hubs[0].name == name then Some(hubs[0])
    else FindHubIn(hubs[1..], name)
  }

  function FindAgentIn(agents: seq<Agent>, name: string): (r: Option<Agent>)
    ensures r.Some? ==> r.value in agents && r.value.name == name
    ensures r.None? ==> forall a <- agents :: a.name != name
  {
    if agents == [] then None
    else if agents[0].name == name then Some(agents[0])
    else FindAgentIn(agents[1..], name)
  }

  /** The search stops at the first entry of that name. */
  lemma {:induction false} FirstHubWins(hubs: seq<Hub>, name: string, i: nat)
    requires i < |hubs| && hubs[i].name == name && forall j | 0 <= j < i :: hubs[j].name != name
    ensures FindHubIn(hubs, name) == Some(hubs[i])
  {
    if i > 0 {
      FirstHubWins(hubs[1..], name, i - 1);
    }
  }

  lemma {:induction false} FirstAgentWins(agents: seq<Agent>, name: string, i: nat)
    requires i < |agents| && agents[i].name == name && forall j | 0 <= j < i :: agents[j].name != name
    ensures FindAgentIn(agents, name) == Some(agents[i])
  {
    if i > 0 {
      FirstAgentWins(agents[1..], name, i - 1);
    }
  }

  /** The agents of one hub, in declaration order. */
  function AgentsOf(agents: seq<Agent>, hub: string): (r: seq<Agent>)
    ensures forall a :: a in r <==> a in agents && a.hub == hub
  {
    if agents == [] then []
    else (if agents[0].hub == hub then [agents[0]] else []) + AgentsOf(agents[1..], hub)
  }

  lemma {:induction false} AgentsOfSnoc(agents: seq<Agent>, a: Agent, hub: string)
    ensures AgentsOf(agents + [a], hub) == AgentsOf(agents, hub) + if a.hub == hub then [a] else []
  {
    if agents != [] {
      assert (agents + [a])[1..] == agents[1..] + [a];
      AgentsOfSnoc(agents[1..], a, hub);
    }
  }

  method FindHub(d: Document, name: string) returns (r: Option<Hub>)
    ensures r == FindHubIn(d.spec.hubs, name)
  {
    var hubs := d.spec.hubs;
    for i := 0 to |hubs|
      invariant FindHubIn(hubs, name) == FindHubIn(hubs[i..], name)
    {
      if hubs[i].name == name {
        return Some(hubs[i]);
      }
      assert hubs[i..][1..] == hubs[i + 1..];
    }
    return None;
  }

  method FindAgent(d: Document, name: string) returns (r: Option<Agent>)
    ensures r == FindAgentIn(d.spec.agents, name)
  {
    var agents := d.spec.agents;
    for i := 0 to |agents|
      invariant FindAgentIn(agents, name) == FindAgentIn(agents[i..], name)
    {
      if agents[i].name == name {
        return Some(agents[i]);
      }
      assert agents[i..][1..] == agents[i + 1..];
    }
    return None;
  }

  method AgentsForHub(d: Document, hub: string) returns (out: seq<Agent>)
    ensures out == AgentsOf(d.spec.agents, hub)
  {
    out := [];
    for i := 0 to |d.spec.agents|
      invariant out == AgentsOf(d.spec.agents[..i], hub)
    {
      assert d.spec.agents[..i + 1] == d.spec.agents[..i] + [d.spec.agents[i]];
      AgentsOfSnoc(d.spec.agents[..i], d.spec.agents[i], hub);
      if d.spec.agents[i].hub == hub {
        out := out + [d.spec.agents[i]];
      }
    }
    assert d.spec.agents[..|d.spec.agents|] == d.spec.agents;
  }

  // ---------- well-formedness ----------

  /** The names of hubs, then of agents. */
  function NodeNames(hubs: seq<Hub>, agents: seq<Agent>): (r: seq<string>)
    ensures |r| == |hubs| + |agents|
  {
    seq(|hubs| + |agents|, i requires 0 <= i < |hubs| + |agents| =>
      if i < |hubs| then hubs[i].name else agents[i - |hubs|].name)
  }

  /** The tunnel addresses, as text, of hubs and then of agents. */
  function NodeIPs(hubs: seq<Hub>, agents: seq<Agent>): (r: seq<string>)
    ensures |r| == |hubs| + |agents|
  {
    seq(|hubs| + |agents|, i requires 0 <= i < |hubs| + |agents| =>
      if i < |hubs| then hubs[i].tunnelIP else agents[i - |hubs|].tunnelIP)
  }

  predicate AddressInside(lib: Lib, overlay: Prefix, raw: string) {
    lib.parseAddr(raw).Some? && Contains(overlay, lib.parseAddr(raw).value)
  }

  ghost predicate DistinctAddresses(lib: Lib, raws: seq<string>) {
    forall i, j | 0 <= i < j < |raws| :: lib.parseAddr(raws[i]) != lib.parseAddr(raws[j])
  }

  predicate DeclaresHub(hubs: seq<Hub>, name: string) {
    exists h <- hubs :: h.name == name
  }

  ghost predicate WellFormedAgent(hubs: seq<Hub>, groups: seq<string>, a: Agent) {
    && DeclaresHub(hubs, a.hub)
    && (forall g <- a.groups :: g in groups)
    && NoDuplicates(a.groups)
  }

  ghost predicate WellFormedAcl(groups: seq<string>, r: Acl) {
    && (r.action == ACTION_ALLOW || r.action == ACTION_DENY)
    && r.from != [] && r.to != []
    && (forall g <- r.from :: g in groups)
    && (forall g <- r.to :: g in groups)
  }

  ghost predicate WellFormedEnvelope(d: Document) {
    && d.apiVersion == API_VERSION && d.kind == KIND && ValidName(d.name)
    && 1280 <= d.spec.wireguard.mtu <= 1500
    && 1 <= d.spec.wireguard.hubListenPort <= 65535
  }

  /** Names are unique labels; addresses are unique and inside the overlay. */
  ghost predicate WellFormedNodes(lib: Lib, overlay: Prefix, names: seq<string>, raws: seq<string>) {
    && (forall n <- names :: ValidName(n))
    && NoDuplicates(names)
    && (forall raw <- raws :: AddressInside(lib, overlay, raw))
    && DistinctAddresses(lib, raws)
  }

  /** What the rest of the system relies on: every reference resolves and every identity is unique. */
  ghost predicate WellFormed(lib: Lib, d: Document) {
    && WellFormedEnvelope(d)
    && lib.parsePrefix(d.spec.cidr).Some?
    && (forall g <- d.spec.groups :: ValidName(g))
    && NoDuplicates(d.spec.groups)
    && d.spec.hubs != []
    && WellFormedNodes(lib, lib.parsePrefix(d.spec.cidr).value,
                       NodeNames(d.spec.hubs, d.spec.agents), NodeIPs(d.spec.hubs, d.spec.agents))
    && (forall h <- d.spec.hubs :: h.endpoint != "" && ValidEndpoint(lib, h.endpoint))
    && (forall a <- d.spec.agents :: WellFormedAgent(d.spec.hubs, d.spec.groups, a))
    && (forall r <- d.spec.acls :: WellFormedAcl(d.spec.groups, r))
  }

  // ---------- what well-formedness gives ----------

  predicate IsHub(d: Document, name: string) {
    FindHubIn(d.spec.hubs, name).Some?
  }

  predicate IsSpoke(d: Document, name: string) {
    !IsHub(d, name) && FindAgentIn(d.spec.agents, name).Some?
  }

  predicate Declared(d: Document, name: string) {
    IsHub(d, name) || IsSpoke(d, name)
  }

  function HubOf(d: Document, name: string): (r: string)
    requires IsSpoke(d, name)
  {
    FindAgentIn(d.spec.agents, name).value.hub
  }

  /** The declared tunnel address, as text; empty if the name is not declared. */
  function TunnelIPOf(d: Document, name: string): (r: string) {
    if IsHub(d, name) then FindHubIn(d.spec.hubs, name).value.tunnelIP
    else if IsSpoke(d, name) then FindAgentIn(d.spec.agents, name).value.tunnelIP
    else ""
  }

  ghost function Overlay(lib: Lib, d: Document): (r: Prefix)
    requires WellFormed(lib, d)
  {
    lib.parsePrefix(d.spec.cidr).value
  }

  /** In a well-formed document the lookups return the entry they were asked for. */
  lemma HubEntry(lib: Lib, d: Document, i: nat)
    requires WellFormed(lib, d) && i < |d.spec.hubs|
    ensures FindHubIn(d.spec.hubs, d.spec.hubs[i].name) == Some(d.spec.hubs[i])
    ensures NodeNames(d.spec.hubs, d.spec.agents)[i] == d.spec.hubs[i].name
    ensures NodeIPs(d.spec.hubs, d.spec.agents)[i] == d.spec.hubs[i].tunnelIP
  {
    var hubs := d.spec.hubs;
    var h := FindHubIn(hubs, hubs[i].name).value;
    var j :| 0 <= j < |hubs| && hubs[j] == h;
    var names := NodeNames(hubs, d.spec.agents);
    assert names[i] == hubs[i].name && names[j] == hubs[j].name;
    assert i == j;
  }

  lemma AgentEntry(lib: Lib, d: Document, i: nat)
    requires WellFormed(lib, d) && i < |d.spec.agents|
    ensures FindHubIn(d.spec.hubs, d.spec.agents[i].name).None?
    ensures FindAgentIn(d.spec.agents, d.spec.agents[i].name) == Some(d.spec.agents[i])
    ensures IsHub(d, d.spec.agents[i].hub)
    ensures NodeNames(d.spec.hubs, d.spec.agents)[|d.spec.hubs| + i] == d.spec.agents[i].name
    ensures NodeIPs(d.spec.hubs, d.spec.agents)[|d.spec.hubs| + i] == d.spec.agents[i].tunnelIP
  {
    var hubs, agents := d.spec.hubs, d.spec.agents;
    var names := NodeNames(hubs, agents);
    assert names[|hubs| + i] == agents[i].name;
    forall h | h in hubs
      ensures h.name != agents[i].name
    {
      var j :| 0 <= j < |hubs| && hubs[j] == h;
      assert names[j] == h.name;
    }
    var a := FindAgentIn(agents, agents[i].name).value;
    var j :| 0 <= j < |agents| && agents[j] == a;
    assert names[|hubs| + j] == agents[j].name;
    assert i == j;
    assert WellFormedAgent(hubs, d.spec.groups, agents[i]);
  }

  /** Position of a declared name in the list of nodes. */
  lemma NodeIndex(lib: Lib, d: Document, name: string) returns (i: nat)
    requires WellFormed(lib, d) && Declared(d, name)
    ensures i < |d.spec.hubs| + |d.spec.agents|
    ensures NodeNames(d.spec.hubs, d.spec.agents)[i] == name
    ensures NodeIPs(d.spec.hubs, d.spec.agents)[i] == TunnelIPOf(d, name)
    ensures IsSpoke(d, name) ==> IsHub(d, HubOf(d, name))
  {
    if IsHub(d, name) {
      var h := FindHubIn(d.spec.hubs, name).value;
      i :| 0 <= i < |d.spec.hubs| && d.spec.hubs[i] == h;
      HubEntry(lib, d, i);
    } else {
      var a := FindAgentIn(d.spec.agents, name).value;
      var j :| 0 <= j < |d.spec.agents| && d.spec.agents[j] == a;
      AgentEntry(lib, d, j);
      i := |d.spec.hubs| + j;
    }
  }

  /** A declared node's address parses and lies in the overlay; a spoke's hub is a hub. */
  lemma DeclaredFacts(lib: Lib, d: Document, name: string)
    requires WellFormed(lib, d) && Declared(d, name)
    ensures AddressInside(lib, Overlay(lib, d), TunnelIPOf(d, name))
    ensures IsSpoke(d, name) ==> IsHub(d, HubOf(d, name))
  {
    var i := NodeIndex(lib, d, name);
    assert NodeIPs(d.spec.hubs, d.spec.agents)[i] in NodeIPs(d.spec.hubs, d.spec.agents);
  }

  /** The address written in `raw`; text that does not parse counts as 0. */
  function ParsedAddr(lib: Lib, raw: string): (r: Addr) {
    if lib.parseAddr(raw).Some? then lib.parseAddr(raw).value else 0
  }

  function Address(lib: Lib, d: Document, name: string): (r: Addr) {
    ParsedAddr(lib, TunnelIPOf(d, name))
  }

  /** Addresses identify declared nodes. */
  lemma AddressesDiffer(lib: Lib, d: Document, m: string, n: string)
    requires WellFormed(lib, d) && Declared(d, m) && Declared(d, n) && m != n
    ensures Address(lib, d, m) != Address(lib, d, n)
  {
    var i := NodeIndex(lib, d, m);
    var j := NodeIndex(lib, d, n);
    DeclaredFacts(lib, d, m);
    DeclaredFacts(lib, d, n);
    var raws := NodeIPs(d.spec.hubs, d.spec.agents);
    if i < j {
      assert lib.parseAddr(raws[i]) != lib.parseAddr(raws[j]);
    } else {
      assert lib.parseAddr(raws[j]) != lib.parseAddr(raws[i]);
    }
  }
}
