/**
 The peer set of one node, computed from the document and a registry view.
 */
module Topology {
  import opened Net
  import opened Spec
  import opened Wg

  datatype Role = UnspecifiedRole | HubRole | SpokeRole

  datatype Self = Self(name: string, role: Role, tunnelIP: Addr, hubName: string)

  /** A registry entry as a heartbeat returns it. */
  datatype PeerInfo = PeerInfo(
    name: string,
    publicKey: string,
    endpoint: string,
    tunnelIP: string,
    lastSeen: int,
    role: Role)

  datatype Failure =
    | NotDeclared | BadCidr | BadTunnelIP | UnsupportedRole
    | HubNotRegistered | BadKey | BadEndpoint | NoEndpoint

  // ---------- identity ----------

  function FindSelf(lib: Lib, d: Document, name: string): (r: Result<Self, Failure>)
    ensures WellFormed(lib, d) && Declared(d, name) ==>
              && r.Ok? && r.value.name == name
              && r.value.tunnelIP == Address(lib, d, name)
              && r.value.role == (if IsHub(d, name) then HubRole else SpokeRole)
              && (IsSpoke(d, name) ==> r.value.hubName == HubOf(d, name))
    ensures !Declared(d, name) ==> r == Err(NotDeclared)
  {
    assert WellFormed(lib, d) && Declared(d, name) ==> lib.parseAddr(TunnelIPOf(d, name)).Some? by {
      if WellFormed(lib, d) && Declared(d, name) {
        DeclaredFacts(lib, d, name);
      }
    }
    var h := FindHubIn(d.spec.hubs, name);
    if h.Some? then
      var addr := lib.parseAddr(h.value.tunnelIP);
      if addr.None? then Err(BadTunnelIP) else Ok(Self(name, HubRole, addr.value, ""))
    else
      var a := FindAgentIn(d.spec.agents, name);
      if a.Some? then
        var addr := lib.parseAddr(a.value.tunnelIP);
        if addr.None? then Err(BadTunnelIP) else Ok(Self(name, SpokeRole, addr.value, a.value.hub))
      else
        Err(NotDeclared)
  }

  /** The address a host stands for: itself if it is a literal, else the first answer of the resolver. */
  ghost predicate StandsFor(lib: Lib, host: string, ip: nat) {
    || lib.parseIP(host) == Some(ip)
    || (lib.parseIP(host).None? && exists ips :: lib.lookupIP(host) == Some(ips) && ips != [] && ips[0] == ip)
  }

  /** Only empty text resolves to "no endpoint"; anything else is an address or a failure. */
  function ResolveEndpoint(lib: Lib, ep: string): (r: Result<Option<UdpAddr>, Failure>)
    ensures r == Ok(None) <==> ep == ""
    ensures r.Err? ==> r.error == BadEndpoint
  {
    if ep == "" then Ok(None)
    else
      var parts := lib.splitHostPort(ep);
      if parts.None? then Err(BadEndpoint)
      else
        var port := lib.atoi(parts.value.1);
        if port.None? then Err(BadEndpoint)
        else
          var literal := lib.parseIP(parts.value.0);
          if literal.Some? then Ok(Some(UdpAddr(literal.value, port.value)))
          else
            var ips := lib.lookupIP(parts.value.0);
            if ips.None? || ips.value == [] then Err(BadEndpoint)
            else Ok(Some(UdpAddr(ips.value[0], port.value)))
  }

  /** Text resolves to an address exactly when it is a host and a port that stand for its two parts. */
  lemma ResolvesTo(lib: Lib, ep: string, u: UdpAddr)
    ensures ResolveEndpoint(lib, ep) == Ok(Some(u)) <==>
            && ep != ""
            && exists host, port ::
                 && lib.splitHostPort(ep) == Some((host, port)) && lib.atoi(port) == Some(u.port)
                 && StandsFor(lib, host, u.ip)
  {
    var parts := lib.splitHostPort(ep);
    if parts.Some? {
      assert parts == Some((parts.value.0, parts.value.1));
    }
  }

  // ---------- the registry view ----------

  predicate Usable(p: PeerInfo) {
    p.name != "" && p.publicKey != ""
  }

  /** The last usable entry under each name. */
  function ByName(registry: seq<PeerInfo>): (m: map<string, PeerInfo>)
    ensures forall n <- m :: m[n].name == n && m[n] in registry && Usable(m[n])
    ensures forall p <- registry :: Usable(p) ==> p.name in m
  {
    if registry == [] then map[]
    else
      var p := registry[|registry| - 1];
      var m := ByName(registry[..|registry| - 1]);
      assert registry == registry[..|registry| - 1] + [p];
      if Usable(p) then m[p.name := p] else m
  }

  lemma ByNameSnoc(registry: seq<PeerInfo>, p: PeerInfo)
    ensures ByName(registry + [p]) == if Usable(p) then ByName(registry)[p.name := p] else ByName(registry)
  {
    assert (registry + [p])[..|registry|] == registry;
  }

  /** A later usable entry of the same name replaces an earlier one. */
  lemma {:induction false} LastEntryWins(registry: seq<PeerInfo>, i: nat)
    requires i < |registry| && Usable(registry[i])
    requires forall j | i < j < |registry| :: !Usable(registry[j]) || registry[j].name != registry[i].name
    ensures registry[i].name in ByName(registry) && ByName(registry)[registry[i].name] == registry[i]
  {
    var n := |registry| - 1;
    assert registry == registry[..n] + [registry[n]];
    ByNameSnoc(registry[..n], registry[n]);
    if i < n {
      LastEntryWins(registry[..n], i);
    }
  }

  method IndexByName(registry: seq<PeerInfo>) returns (m: map<string, PeerInfo>)
    ensures m == ByName(registry)
    ensures forall n :: n in m <==> n != "" && exists p <- registry :: p.name == n && p.publicKey != ""
  {
    m := map[];
    for i := 0 to |registry|
      invariant m == ByName(registry[..i])
    {
      assert registry[..i + 1][..i] == registry[..i];
      if registry[i].name == "" || registry[i].publicKey == "" {
        continue;
      }
      m := m[registry[i].name := registry[i]];
    }
    assert registry[..|registry|] == registry;
  }

  // ---------- one peer at a time ----------

  type Step = Result<Option<Peer>, Failure>

  /** `singleHostPrefix` over a list of addresses, stopping at the first that does not parse. */
  function HostPrefixes(lib: Lib, raws: seq<string>): (r: Result<seq<Prefix>, Failure>)
    ensures r.Ok? ==> |r.value| == |raws| && forall i | 0 <= i < |raws| ::
                        lib.parseAddr(raws[i]).Some? && r.value[i] == Host(lib.parseAddr(raws[i]).value)
    ensures (forall i | 0 <= i < |raws| :: lib.parseAddr(raws[i]).Some?) ==> r.Ok?
  {
    if raws == [] then Ok([])
    else
      var first := lib.parseAddr(raws[0]);
      if first.None? then Err(BadTunnelIP)
      else
        var rest := HostPrefixes(lib, raws[1..]);
        if rest.Err? then rest else Ok([Host(first.value)] + rest.value)
  }

  function MeshIPs(d: Document, h: Hub): (r: seq<string>)
    ensures |r| == 1 + |AgentsOf(d.spec.agents, h.name)|
  {
    var spokes := AgentsOf(d.spec.agents, h.name);
    [h.tunnelIP] + seq(|spokes|, i requires 0 <= i < |spokes| => spokes[i].tunnelIP)
  }

  /** What hub `self` does for declared hub `h`. */
  function HubStep(lib: Lib, d: Document, self: Self, h: Hub, byName: map<string, PeerInfo>, keepalive: int): (r: Step)
  {
    if h.name == self.name || h.name !in byName then Ok(None)
    else
      var info := byName[h.name];
      var pub := lib.parseKey(info.publicKey);
      var endpoint := ResolveEndpoint(lib, info.endpoint);
      var allowed := HostPrefixes(lib, MeshIPs(d, h));
      if pub.None? then Err(BadKey)
      else if endpoint.Err? then Err(endpoint.error)
      else if endpoint.value.None? then Err(NoEndpoint)
      else if allowed.Err? then Err(allowed.error)
      else Ok(Some(Peer(h.name, pub.value, endpoint.value, allowed.value, keepalive)))
  }

  /** What a hub does for one of its spokes: no endpoint, no keepalive. */
  function SpokeStep(lib: Lib, a: Agent, byName: map<string, PeerInfo>): (r: Step) {
    if a.name !in byName then Ok(None)
    else
      var pub := lib.parseKey(byName[a.name].publicKey);
      var ip := lib.parseAddr(a.tunnelIP);
      if pub.None? then Err(BadKey)
      else if ip.None? then Err(BadTunnelIP)
      else Ok(Some(Peer(a.name, pub.value, None, [Host(ip.value)], 0)))
  }

  /** Run steps in order, collecting peers and stopping at the first failure. */
  function Collect(steps: seq<Step>, peers: seq<Peer>): (r: Result<seq<Peer>, Failure>) {
    if steps == [] then Ok(peers)
    else if steps[0].Err? then Err(steps[0].error)
    else if steps[0].value.None? then Collect(steps[1..], peers)
    else Collect(steps[1..], peers + [steps[0].value.value])
  }

  function HubSteps(lib: Lib, d: Document, self: Self, byName: map<string, PeerInfo>, keepalive: int): (r: seq<Step>)
    ensures |r| == |d.spec.hubs|
  {
    seq(|d.spec.hubs|, i requires 0 <= i < |d.spec.hubs| => HubStep(lib, d, self, d.spec.hubs[i], byName, keepalive))
  }

  function SpokeSteps(lib: Lib, agents: seq<Agent>, byName: map<string, PeerInfo>): (r: seq<Step>)
    ensures |r| == |agents|
  {
    seq(|agents|, i requires 0 <= i < |agents| => SpokeStep(lib, agents[i], byName))
  }

  function HubPeers(lib: Lib, d: Document, self: Self, byName: map<string, PeerInfo>, keepalive: int)
    : (r: Result<seq<Peer>, Failure>)
  {
    Collect(HubSteps(lib, d, self, byName, keepalive) + SpokeSteps(lib, AgentsOf(d.spec.agents, self.name), byName), [])
  }

  function SpokePeers(lib: Lib, self: Self, byName: map<string, PeerInfo>, overlay: Prefix, keepalive: int)
    : (r: Result<seq<Peer>, Failure>)
  {
    if self.hubName !in byName then Err(HubNotRegistered)
    else
      var hub := byName[self.hubName];
      var pub := lib.parseKey(hub.publicKey);
      var endpoint := ResolveEndpoint(lib, hub.endpoint);
      if pub.None? then Err(BadKey)
      else if endpoint.Err? then Err(endpoint.error)
      else if endpoint.value.None? then Err(NoEndpoint)
      else Ok([Peer(hub.name, pub.value, endpoint.value, [overlay], keepalive)])
  }

  function PeersFor(lib: Lib, d: Document, self: Self, registry: seq<PeerInfo>, keepalive: int)
    : (r: Result<seq<Peer>, Failure>)
  {
    var overlay := lib.parsePrefix(d.spec.cidr);
    if overlay.None? then Err(BadCidr)
    else match self.role
      case SpokeRole => SpokePeers(lib, self, ByName(registry), overlay.value, keepalive)
      case HubRole => HubPeers(lib, d, self, ByName(registry), keepalive)
      case UnspecifiedRole => Err(UnsupportedRole)
  }

  // ---------- the loops ----------

  ghost function Prepend(allowed: seq<Prefix>, rest: Result<seq<Prefix>, Failure>): (r: Result<seq<Prefix>, Failure>) {
    if rest.Err? then rest else Ok(allowed + rest.value)
  }

  /** One more address: the list grows by its prefix, or the whole computation fails. */
  lemma PrependOne(lib: Lib, raws: seq<string>, k: nat, allowed: seq<Prefix>)
    requires k < |raws|
    ensures Prepend(allowed, HostPrefixes(lib, raws[k..])) ==
            match lib.parseAddr(raws[k])
            case None => Err(BadTunnelIP)
            case Some(a) => Prepend(allowed + [Host(a)], HostPrefixes(lib, raws[k + 1..]))
  {
    var rest := HostPrefixes(lib, raws[k + 1..]);
    assert raws[k..][0] == raws[k] && raws[k..][1..] == raws[k + 1..];
    if lib.parseAddr(raws[k]).Some? && rest.Ok? {
      var p := Host(lib.parseAddr(raws[k]).value);
      assert allowed + ([p] + rest.value) == (allowed + [p]) + rest.value;
    }
  }

  method HubMeshAllowedIPs(lib: Lib, d: Document, other: Hub) returns (r: Result<seq<Prefix>, Failure>)
    ensures r == HostPrefixes(lib, MeshIPs(d, other))
  {
    ghost var raws := MeshIPs(d, other);
    var first := lib.parseAddr(other.tunnelIP);
    if first.None? {
      return Err(BadTunnelIP);
    }
    var allowed := [Host(first.value)];
    var spokes := AgentsForHub(d, other.name);
    for i := 0 to |spokes|
      invariant HostPrefixes(lib, raws) == Prepend(allowed, HostPrefixes(lib, raws[1 + i..]))
    {
      var p := lib.parseAddr(spokes[i].tunnelIP);
      PrependOne(lib, raws, 1 + i, allowed);
      if p.None? {
        return Err(BadTunnelIP);
      }
      allowed := allowed + [Host(p.value)];
    }
    assert raws[1 + |spokes|..] == [] && allowed + [] == allowed;
    return Ok(allowed);
  }

  /** The first loop of `hubPeers`, over the hubs; `rest` are the steps still to come. */
  method AppendHubs(lib: Lib, d: Document, self: Self, byName: map<string, PeerInfo>, keepalive: int,
                    ghost rest: seq<Step>)
    returns (r: Result<seq<Peer>, Failure>)
    ensures Collect(HubSteps(lib, d, self, byName, keepalive) + rest, []) ==
            if r.Ok? then Collect(rest, r.value) else r
  {
    var peers := [];
    ghost var steps := HubSteps(lib, d, self, byName, keepalive) + rest;
    for i := 0 to |d.spec.hubs|
      invariant Collect(steps, []) == Collect(steps[i..], peers)
    {
      var h := d.spec.hubs[i];
      assert steps[i..][0] == HubStep(lib, d, self, h, byName, keepalive) && steps[i..][1..] == steps[i + 1..];
      if h.name == self.name {
        continue;
      }
      if h.name !in byName {
        continue;
      }
      var pub := lib.parseKey(byName[h.name].publicKey);
      if pub.None? {
        return Err(BadKey);
      }
      var endpoint := ResolveEndpoint(lib, byName[h.name].endpoint);
      if endpoint.Err? {
        return Err(endpoint.error);
      }
      if endpoint.value.None? {
        return Err(NoEndpoint);
      }
      var allowed := HubMeshAllowedIPs(lib, d, h);
      if allowed.Err? {
        return Err(allowed.error);
      }
      peers := peers + [Peer(h.name, pub.value, endpoint.value, allowed.value, keepalive)];
    }
    assert steps[|d.spec.hubs|..] == rest;
    return Ok(peers);
  }

  /** The second loop, over the hub's own spokes. */
  method AppendSpokes(lib: Lib, spokes: seq<Agent>, byName: map<string, PeerInfo>, start: seq<Peer>)
    returns (r: Result<seq<Peer>, Failure>)
    ensures r == Collect(SpokeSteps(lib, spokes, byName), start)
  {
    var peers := start;
    ghost var steps := SpokeSteps(lib, spokes, byName);
    for i := 0 to |spokes|
      invariant Collect(steps, start) == Collect(steps[i..], peers)
    {
      var s := spokes[i];
      assert steps[i..][0] == SpokeStep(lib, s, byName) && steps[i..][1..] == steps[i + 1..];
      if s.name !in byName {
        continue;
      }
      var pub := lib.parseKey(byName[s.name].publicKey);
      if pub.None? {
        return Err(BadKey);
      }
      var ip := lib.parseAddr(s.tunnelIP);
      if ip.None? {
        return Err(BadTunnelIP);
      }
      peers := peers + [Peer(s.name, pub.value, None, [Host(ip.value)], 0)];
    }
    return Ok(peers);
  }

  /** `hubPeers`: the other hubs, then the hub's own spokes, stopping at the first failure. */
  method BuildHubPeers(lib: Lib, d: Document, self: Self, byName: map<string, PeerInfo>, keepalive: int)
    returns (r: Result<seq<Peer>, Failure>)
    ensures r == HubPeers(lib, d, self, byName, keepalive)
  {
    var spokes := AgentsForHub(d, self.name);
    r := AppendHubs(lib, d, self, byName, keepalive, SpokeSteps(lib, spokes, byName));
    if r.Ok? {
      r := AppendSpokes(lib, spokes, byName, r.value);
    }
  }

  method ComputePeers(lib: Lib, d: Document, self: Self, registry: seq<PeerInfo>, keepalive: int)
    returns (r: Result<seq<Peer>, Failure>)
    ensures r == PeersFor(lib, d, self, registry, keepalive)
  {
    var overlay := lib.parsePrefix(d.spec.cidr);
    if overlay.None? {
      return Err(BadCidr);
    }
    var byName := IndexByName(registry);
    match self.role {
      case SpokeRole => r := SpokePeers(lib, self, byName, overlay.value, keepalive);
      case HubRole => r := BuildHubPeers(lib, d, self, byName, keepalive);
      case UnspecifiedRole => r := Err(UnsupportedRole);
    }
  }
}
