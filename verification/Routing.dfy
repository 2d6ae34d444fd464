/**
 What the peer sets of `Topology` mean: which addresses each entry carries, where a
 node's table sends a packet, and exactly when a peer set can be computed.
 */
module Routing {
  import opened Net
  import opened Sequences
  import opened Spec
  import opened Wg
  import opened Topology

  // ---------- what the collected peers are ----------

  lemma {:induction false} CollectFacts(steps: seq<Step>, peers: seq<Peer>)
    requires Collect(steps, peers).Ok?
    ensures forall s <- steps :: s.Ok?
    ensures forall p :: p in Collect(steps, peers).value <==> p in peers || Ok(Some(p)) in steps
  {
    if steps != [] {
      var s := steps[0];
      assert steps == [s] + steps[1..];
      CollectFacts(steps[1..], if s.value.None? then peers else peers + [s.value.value]);
    }
  }

  ghost predicate DistinctPeers(peers: seq<Peer>) {
    forall i, j | 0 <= i < j < |peers| :: peers[i].name != peers[j].name
  }

  /** Steps for different names give peers with different names. */
  lemma {:induction false} CollectDistinct(steps: seq<Step>, names: seq<string>, peers: seq<Peer>)
    requires Collect(steps, peers).Ok? && |names| == |steps| && NoDuplicates(names)
    requires forall i | 0 <= i < |steps| ::
               steps[i].Ok? && steps[i].value.Some? ==> steps[i].value.value.name == names[i]
    requires forall p <- peers :: p.name !in names
    requires DistinctPeers(peers)
    ensures DistinctPeers(Collect(steps, peers).value)
  {
    if steps != [] {
      var s := steps[0];
      var peers' := if s.value.None? then peers else peers + [s.value.value];
      assert names == [names[0]] + names[1..];
      assert names[0] !in names[1..] by {
        assert forall i | 0 <= i < |names[1..]| :: names[1..][i] == names[i + 1];
      }
      CollectDistinct(steps[1..], names[1..], peers');
    }
  }

  ghost predicate DistinctAgents(agents: seq<Agent>) {
    forall i, j | 0 <= i < j < |agents| :: agents[i].name != agents[j].name
  }

  lemma {:induction false} AgentsOfDistinct(agents: seq<Agent>, hub: string)
    requires DistinctAgents(agents)
    ensures DistinctAgents(AgentsOf(agents, hub))
  {
    if agents != [] {
      AgentsOfDistinct(agents[1..], hub);
      var rest := AgentsOf(agents[1..], hub);
      forall a | a in rest
        ensures a.name != agents[0].name
      {
        var i :| 0 <= i < |agents[1..]| && agents[1..][i] == a;
        assert agents[i + 1] == a;
      }
      if agents[0].hub == hub {
        var r := AgentsOf(agents, hub);
        assert r == [agents[0]] + rest;
        forall i, j | 0 <= i < j < |r|
          ensures r[i].name != r[j].name
        {
          assert r[j] == rest[j - 1];
          assert i > 0 ==> r[i] == rest[i - 1];
        }
      } else {
        assert AgentsOf(agents, hub) == rest;
      }
    }
  }

  // ---------- routing ----------

  /** Where `self` must hand a packet for `n`: a spoke to its hub; a hub to `n` itself or to the hub of `n`. */
  function NextHop(d: Document, self: string, n: string): (r: string)
    requires Declared(d, self) && Declared(d, n)
  {
    if IsSpoke(d, self) then HubOf(d, self)
    else if IsHub(d, n) || HubOf(d, n) == self then n
    else HubOf(d, n)
  }

  /** `n` is reached from hub `self` through its peer `via`. */
  predicate RoutedVia(d: Document, self: string, via: string, n: string)
    requires Declared(d, self)
  {
    Declared(d, n) && n != self && NextHop(d, self, n) == via
  }

  /** The peer entry `p` carries exactly the addresses routed through the node of that name. */
  ghost predicate CarriesRoutes(lib: Lib, d: Document, self: string, p: Peer)
    requires Declared(d, self)
  {
    forall q: Prefix :: q in MaskedSet(p.allowedIPs) <==>
      exists n :: RoutedVia(d, self, p.name, n) && q == Host(Address(lib, d, n))
  }

  lemma AgentIndex(d: Document, a: Agent) returns (i: nat)
    requires a in d.spec.agents
    ensures i < |d.spec.agents| && d.spec.agents[i] == a
  {
    i :| 0 <= i < |d.spec.agents| && d.spec.agents[i] == a;
  }

  /** A hub is routed through itself, and so are its spokes. */
  lemma RoutedThroughHub(lib: Lib, d: Document, self: string, h: Hub)
    requires WellFormed(lib, d) && IsHub(d, self) && h in d.spec.hubs && h.name != self
    ensures RoutedVia(d, self, h.name, h.name) && TunnelIPOf(d, h.name) == h.tunnelIP
  {
    var i :| 0 <= i < |d.spec.hubs| && d.spec.hubs[i] == h;
    HubEntry(lib, d, i);
  }

  lemma SpokeRoutedThroughHub(lib: Lib, d: Document, self: string, a: Agent)
    requires WellFormed(lib, d) && IsHub(d, self) && a in d.spec.agents && a.hub != self
    ensures RoutedVia(d, self, a.hub, a.name) && TunnelIPOf(d, a.name) == a.tunnelIP
  {
    var j := AgentIndex(d, a);
    AgentEntry(lib, d, j);
  }

  /** The text address of entry `k` in the mesh list of `h`, and the node it belongs to. */
  lemma MeshNode(lib: Lib, d: Document, self: string, h: Hub, k: nat) returns (n: string)
    requires WellFormed(lib, d) && IsHub(d, self) && h in d.spec.hubs && h.name != self
    requires k < |MeshIPs(d, h)|
    ensures RoutedVia(d, self, h.name, n) && TunnelIPOf(d, n) == MeshIPs(d, h)[k]
  {
    if k == 0 {
      RoutedThroughHub(lib, d, self, h);
      n := h.name;
    } else {
      var a := AgentsOf(d.spec.agents, h.name)[k - 1];
      assert a in AgentsOf(d.spec.agents, h.name);
      SpokeRoutedThroughHub(lib, d, self, a);
      n := a.name;
    }
  }

  /** Every node routed through hub `h` is in the mesh list of `h`. */
  lemma MeshComplete(lib: Lib, d: Document, self: string, h: Hub, n: string) returns (k: nat)
    requires WellFormed(lib, d) && IsHub(d, self) && h in d.spec.hubs
    requires RoutedVia(d, self, h.name, n)
    ensures k < |MeshIPs(d, h)| && MeshIPs(d, h)[k] == TunnelIPOf(d, n)
  {
    var i :| 0 <= i < |d.spec.hubs| && d.spec.hubs[i] == h;
    HubEntry(lib, d, i);
    if n == h.name {
      k := 0;
    } else {
      var a := FindAgentIn(d.spec.agents, n).value;
      var spokes := AgentsOf(d.spec.agents, h.name);
      assert a in spokes;
      var j :| 0 <= j < |spokes| && spokes[j] == a;
      k := j + 1;
    }
  }

  lemma HubStepCarries(lib: Lib, d: Document, self: Self, h: Hub, byName: map<string, PeerInfo>, keepalive: int)
    requires WellFormed(lib, d) && IsHub(d, self.name) && h in d.spec.hubs
    requires HubStep(lib, d, self, h, byName, keepalive).Ok? && HubStep(lib, d, self, h, byName, keepalive).value.Some?
    ensures CarriesRoutes(lib, d, self.name, HubStep(lib, d, self, h, byName, keepalive).value.value)
  {
    var p := HubStep(lib, d, self, h, byName, keepalive).value.value;
    var raws := MeshIPs(d, h);
    forall q: Prefix | q in MaskedSet(p.allowedIPs)
      ensures exists n :: RoutedVia(d, self.name, p.name, n) && q == Host(Address(lib, d, n))
    {
      var r :| r in p.allowedIPs && q == Masked(r);
      var k :| 0 <= k < |p.allowedIPs| && p.allowedIPs[k] == r;
      HostFacts(r.addr, r.addr);
      var n := MeshNode(lib, d, self.name, h, k);
      assert RoutedVia(d, self.name, p.name, n) && q == Host(Address(lib, d, n));
    }
    forall q: Prefix, n | RoutedVia(d, self.name, p.name, n) && q == Host(Address(lib, d, n))
      ensures q in MaskedSet(p.allowedIPs)
    {
      var k := MeshComplete(lib, d, self.name, h, n);
      HostFacts(Address(lib, d, n), 0);
      assert p.allowedIPs[k] == q && q in p.allowedIPs;
    }
  }

  lemma SpokeStepCarries(lib: Lib, d: Document, self: string, a: Agent, byName: map<string, PeerInfo>)
    requires WellFormed(lib, d) && IsHub(d, self) && a in d.spec.agents && a.hub == self
    requires SpokeStep(lib, a, byName).Ok? && SpokeStep(lib, a, byName).value.Some?
    ensures CarriesRoutes(lib, d, self, SpokeStep(lib, a, byName).value.value)
  {
    var p := SpokeStep(lib, a, byName).value.value;
    var j := AgentIndex(d, a);
    AgentEntry(lib, d, j);
    var only := Host(Address(lib, d, a.name));
    HostFacts(only.addr, 0);
    assert p.allowedIPs == [only];
    assert MaskedSet(p.allowedIPs) == {only};
    assert RoutedVia(d, self, p.name, a.name);
    forall n | RoutedVia(d, self, p.name, n)
      ensures n == a.name
    {
      DeclaredFacts(lib, d, n);
    }
  }

  /** Directly connected to hub `self`: the other hubs, and its own spokes. */
  predicate Adjacent(d: Document, self: string, m: string) {
    m != self && (IsHub(d, m) || (IsSpoke(d, m) && HubOf(d, m) == self))
  }

  /** The names, step by step, that `HubPeers` goes through. */
  ghost function StepNames(d: Document, self: string): (r: seq<string>)
    ensures |r| == |d.spec.hubs| + |AgentsOf(d.spec.agents, self)|
  {
    NodeNames(d.spec.hubs, AgentsOf(d.spec.agents, self))
  }

  lemma AgentNamesDistinct(lib: Lib, d: Document)
    requires WellFormed(lib, d)
    ensures DistinctAgents(d.spec.agents)
  {
    var hubs, agents := d.spec.hubs, d.spec.agents;
    var names := NodeNames(hubs, agents);
    forall i, j | 0 <= i < j < |agents|
      ensures agents[i].name != agents[j].name
    {
      assert names[|hubs| + i] == agents[i].name && names[|hubs| + j] == agents[j].name;
    }
  }

  /** Entry `i` of the step names, found again among all node names; agents keep their order. */
  lemma StepNameIndex(d: Document, self: string, i: nat) returns (k: nat)
    requires i < |StepNames(d, self)|
    ensures k < |d.spec.hubs| + |d.spec.agents| && NodeNames(d.spec.hubs, d.spec.agents)[k] == StepNames(d, self)[i]
    ensures if i < |d.spec.hubs| then k == i else k >= |d.spec.hubs|
  {
    if i < |d.spec.hubs| {
      k := i;
    } else {
      var mine := AgentsOf(d.spec.agents, self);
      assert mine[i - |d.spec.hubs|] in mine;
      var j := AgentIndex(d, mine[i - |d.spec.hubs|]);
      k := |d.spec.hubs| + j;
    }
  }

  lemma StepNamesDistinct(lib: Lib, d: Document, self: string)
    requires WellFormed(lib, d)
    ensures NoDuplicates(StepNames(d, self))
  {
    var hubs, mine, r := |d.spec.hubs|, AgentsOf(d.spec.agents, self), StepNames(d, self);
    AgentNamesDistinct(lib, d);
    AgentsOfDistinct(d.spec.agents, self);
    forall i, j | 0 <= i < j < |r|
      ensures r[i] != r[j]
    {
      if i < hubs {
        var k := StepNameIndex(d, self, i);
        var l := StepNameIndex(d, self, j);
      } else {
        assert r[i] == mine[i - hubs].name && r[j] == mine[j - hubs].name;
      }
    }
  }

  /** What a peer in a hub's list is. */
  ghost predicate GoodHubPeer(lib: Lib, d: Document, self: string, byName: map<string, PeerInfo>, p: Peer)
    requires Declared(d, self)
  {
    && Adjacent(d, self, p.name) && p.name in byName
    && lib.parseKey(byName[p.name].publicKey) == Some(p.publicKey)
    && (IsHub(d, p.name) <==> p.endpoint.Some?)
    && CarriesRoutes(lib, d, self, p)
  }

  ghost function AllSteps(lib: Lib, d: Document, self: Self, byName: map<string, PeerInfo>, keepalive: int)
    : (r: seq<Step>)
    ensures |r| == |d.spec.hubs| + |AgentsOf(d.spec.agents, self.name)|
  {
    HubSteps(lib, d, self, byName, keepalive) + SpokeSteps(lib, AgentsOf(d.spec.agents, self.name), byName)
  }

  /** The step that handles a registered neighbour; unless it fails, it yields that neighbour. */
  lemma NeighbourStep(lib: Lib, d: Document, self: Self, byName: map<string, PeerInfo>, keepalive: int, m: string)
    returns (i: nat)
    requires WellFormed(lib, d) && m in byName && Adjacent(d, self.name, m)
    ensures i < |AllSteps(lib, d, self, byName, keepalive)|
    ensures var s := AllSteps(lib, d, self, byName, keepalive)[i];
            s.Ok? ==> s.value.Some? && s.value.value.name == m
  {
    if IsHub(d, m) {
      var h := FindHubIn(d.spec.hubs, m).value;
      i :| 0 <= i < |d.spec.hubs| && d.spec.hubs[i] == h;
    } else {
      var mine := AgentsOf(d.spec.agents, self.name);
      var s := FindAgentIn(d.spec.agents, m).value;
      assert s in mine;
      var j :| 0 <= j < |mine| && mine[j] == s;
      i := |d.spec.hubs| + j;
    }
  }

  lemma HubStepMeaning(lib: Lib, d: Document, self: Self, byName: map<string, PeerInfo>, keepalive: int, i: nat,
                       p: Peer)
    requires WellFormed(lib, d) && IsHub(d, self.name) && i < |d.spec.hubs|
    requires HubStep(lib, d, self, d.spec.hubs[i], byName, keepalive) == Ok(Some(p))
    ensures GoodHubPeer(lib, d, self.name, byName, p)
  {
    HubEntry(lib, d, i);
    HubStepCarries(lib, d, self, d.spec.hubs[i], byName, keepalive);
  }

  lemma SpokeStepMeaning(lib: Lib, d: Document, self: string, byName: map<string, PeerInfo>, a: Agent, p: Peer)
    requires WellFormed(lib, d) && IsHub(d, self) && a in AgentsOf(d.spec.agents, self)
    requires SpokeStep(lib, a, byName) == Ok(Some(p))
    ensures GoodHubPeer(lib, d, self, byName, p)
  {
    var j := AgentIndex(d, a);
    AgentEntry(lib, d, j);
    SpokeStepCarries(lib, d, self, a, byName);
  }

  lemma StepMeaning(lib: Lib, d: Document, self: Self, byName: map<string, PeerInfo>, keepalive: int, i: nat, p: Peer)
    requires WellFormed(lib, d) && IsHub(d, self.name)
    requires i < |d.spec.hubs| + |AgentsOf(d.spec.agents, self.name)|
    requires AllSteps(lib, d, self, byName, keepalive)[i] == Ok(Some(p))
    ensures GoodHubPeer(lib, d, self.name, byName, p)
  {
    if i < |d.spec.hubs| {
      assert HubStep(lib, d, self, d.spec.hubs[i], byName, keepalive) == Ok(Some(p));
      HubStepMeaning(lib, d, self, byName, keepalive, i, p);
    } else {
      SpokeStepMeaning(lib, d, self.name, byName, AgentsOf(d.spec.agents, self.name)[i - |d.spec.hubs|], p);
    }
  }

  /** A hub's list holds exactly its registered neighbours, each with the addresses routed through it. */
  lemma HubPeersMeaning(lib: Lib, d: Document, self: Self, byName: map<string, PeerInfo>, keepalive: int)
    requires WellFormed(lib, d) && IsHub(d, self.name)
    requires HubPeers(lib, d, self, byName, keepalive).Ok?
    ensures forall p <- HubPeers(lib, d, self, byName, keepalive).value :: GoodHubPeer(lib, d, self.name, byName, p)
    ensures forall m <- byName :: Adjacent(d, self.name, m) ==>
              exists p <- HubPeers(lib, d, self, byName, keepalive).value :: p.name == m
  {
    var steps := AllSteps(lib, d, self, byName, keepalive);
    var peers := Collect(steps, []).value;
    CollectFacts(steps, []);
    forall p | p in peers
      ensures GoodHubPeer(lib, d, self.name, byName, p)
    {
      var i :| 0 <= i < |steps| && steps[i] == Ok(Some(p));
      StepMeaning(lib, d, self, byName, keepalive, i, p);
    }
    forall m | m in byName && Adjacent(d, self.name, m)
      ensures exists p <- peers :: p.name == m
    {
      var i := NeighbourStep(lib, d, self, byName, keepalive, m);
      assert steps[i] in steps;
      assert Ok(Some(steps[i].value.value)) in steps;
      assert steps[i].value.value in peers;
    }
  }

  lemma StepNamed(lib: Lib, d: Document, self: Self, byName: map<string, PeerInfo>, keepalive: int, i: nat)
    requires i < |AllSteps(lib, d, self, byName, keepalive)|
    ensures var s := AllSteps(lib, d, self, byName, keepalive)[i];
            s.Ok? && s.value.Some? ==> s.value.value.name == StepNames(d, self.name)[i]
  {
  }

  lemma HubPeersDistinct(lib: Lib, d: Document, self: Self, byName: map<string, PeerInfo>, keepalive: int)
    requires WellFormed(lib, d) && IsHub(d, self.name)
    requires HubPeers(lib, d, self, byName, keepalive).Ok?
    ensures DistinctPeers(HubPeers(lib, d, self, byName, keepalive).value)
  {
    var steps, names := AllSteps(lib, d, self, byName, keepalive), StepNames(d, self.name);
    StepNamesDistinct(lib, d, self.name);
    forall i | 0 <= i < |steps| && steps[i].Ok? && steps[i].value.Some?
      ensures steps[i].value.value.name == names[i]
    {
      StepNamed(lib, d, self, byName, keepalive, i);
    }
    CollectDistinct(steps, names, []);
  }

  // ---------- the table partition ----------

  /** No two entries share an address: an address has one owner and the owner one next hop. */
  lemma HubPeersDisjoint(lib: Lib, d: Document, self: string, byName: map<string, PeerInfo>, peers: seq<Peer>)
    requires WellFormed(lib, d) && IsHub(d, self) && DistinctPeers(peers)
    requires forall p <- peers :: GoodHubPeer(lib, d, self, byName, p)
    ensures DisjointPrefixes(peers)
    ensures forall p <- peers :: Host(Address(lib, d, self)) !in MaskedSet(p.allowedIPs)
  {
    forall i, j | 0 <= i < j < |peers|
      ensures MaskedSet(peers[i].allowedIPs) !! MaskedSet(peers[j].allowedIPs)
    {
      assert GoodHubPeer(lib, d, self, byName, peers[i]) && GoodHubPeer(lib, d, self, byName, peers[j]);
      forall q | q in MaskedSet(peers[i].allowedIPs) && q in MaskedSet(peers[j].allowedIPs)
        ensures false
      {
        var m :| RoutedVia(d, self, peers[i].name, m) && q == Host(Address(lib, d, m));
        var n :| RoutedVia(d, self, peers[j].name, n) && q == Host(Address(lib, d, n));
        if m != n {
          AddressesDiffer(lib, d, m, n);
        }
      }
    }
    forall p | p in peers && Host(Address(lib, d, self)) in MaskedSet(p.allowedIPs)
      ensures false
    {
      var n :| RoutedVia(d, self, p.name, n) && Host(Address(lib, d, self)) == Host(Address(lib, d, n));
      AddressesDiffer(lib, d, self, n);
    }
  }

  lemma NextHopAdjacent(lib: Lib, d: Document, self: string, n: string)
    requires WellFormed(lib, d) && IsHub(d, self) && Declared(d, n) && n != self
    ensures Adjacent(d, self, NextHop(d, self, n))
  {
    DeclaredFacts(lib, d, n);
  }

  /**
   Hub table partition: the entries are disjoint, never name the hub's own address, and hold exactly
   the addresses of the other declared nodes whose next hop has registered; so once everyone has, they
   cover every other address, each once.
   */
  lemma HubTablePartition(lib: Lib, d: Document, self: Self, byName: map<string, PeerInfo>, keepalive: int)
    requires WellFormed(lib, d) && IsHub(d, self.name)
    requires HubPeers(lib, d, self, byName, keepalive).Ok?
    ensures DisjointPrefixes(HubPeers(lib, d, self, byName, keepalive).value)
    ensures forall p <- HubPeers(lib, d, self, byName, keepalive).value ::
              Host(Address(lib, d, self.name)) !in MaskedSet(p.allowedIPs)
    ensures forall n | Declared(d, n) && n != self.name ::
              NextHop(d, self.name, n) in byName <==>
                exists p <- HubPeers(lib, d, self, byName, keepalive).value ::
                  Host(Address(lib, d, n)) in MaskedSet(p.allowedIPs)
  {
    var peers := HubPeers(lib, d, self, byName, keepalive).value;
    HubPeersMeaning(lib, d, self, byName, keepalive);
    HubPeersDistinct(lib, d, self, byName, keepalive);
    HubPeersDisjoint(lib, d, self.name, byName, peers);
    forall n | Declared(d, n) && n != self.name
      ensures NextHop(d, self.name, n) in byName <==>
                exists p <- peers :: Host(Address(lib, d, n)) in MaskedSet(p.allowedIPs)
    {
      var via := NextHop(d, self.name, n);
      NextHopAdjacent(lib, d, self.name, n);
      if via in byName {
        var p :| p in peers && p.name == via;
        assert GoodHubPeer(lib, d, self.name, byName, p);
        assert RoutedVia(d, self.name, p.name, n);
      }
      forall p | p in peers && Host(Address(lib, d, n)) in MaskedSet(p.allowedIPs)
        ensures via in byName
      {
        assert GoodHubPeer(lib, d, self.name, byName, p);
        var m :| RoutedVia(d, self.name, p.name, m) && Host(Address(lib, d, n)) == Host(Address(lib, d, m));
        if m != n {
          AddressesDiffer(lib, d, m, n);
        }
      }
    }
  }

  // ---------- what a node's table says ----------

  /** The keys a registry view makes known. */
  function KeyView(lib: Lib, byName: map<string, PeerInfo>): (r: map<string, Key>) {
    map n | n in byName && lib.parseKey(byName[n].publicKey).Some? :: lib.parseKey(byName[n].publicKey).value
  }

  /** Different names hold different keys. */
  ghost predicate Injective(view: map<string, Key>) {
    forall m <- view, n <- view :: m != n ==> view[m] != view[n]
  }

  /** The declared node with this address, if any. */
  ghost function Owner(lib: Lib, d: Document, a: Addr): (r: Option<string>)
    ensures r.Some? ==> Declared(d, r.value) && Address(lib, d, r.value) == a
    ensures r.None? ==> forall n :: Declared(d, n) ==> Address(lib, d, n) != a
  {
    if n: string :| Declared(d, n) && Address(lib, d, n) == a then Some(n) else None
  }

  /** The peer key a node should find for address `a`, given the keys it has seen. */
  ghost function ExpectedRoute(lib: Lib, d: Document, self: string, view: map<string, Key>, a: Addr): (r: Option<Key>)
    requires WellFormed(lib, d) && Declared(d, self)
  {
    if IsSpoke(d, self) then
      if Contains(Overlay(lib, d), a) && HubOf(d, self) in view then Some(view[HubOf(d, self)]) else None
    else
      var n := Owner(lib, d, a);
      if n.None? || n.value == self || NextHop(d, self, n.value) !in view then None
      else Some(view[NextHop(d, self, n.value)])
  }

  ghost predicate RoutesAsExpected(lib: Lib, d: Document, self: string, view: map<string, Key>, table: map<Prefix, Key>)
    requires WellFormed(lib, d) && Declared(d, self)
  {
    forall a :: Lookup(table, a) == ExpectedRoute(lib, d, self, view, a)
  }

  /** An address in the table leads to the next hop of its owner. */
  lemma HubRouteFound(lib: Lib, d: Document, self: string, byName: map<string, PeerInfo>, p: Peer, a: Addr)
    requires WellFormed(lib, d) && IsHub(d, self)
    requires GoodHubPeer(lib, d, self, byName, p) && Host(a) in MaskedSet(p.allowedIPs)
    ensures ExpectedRoute(lib, d, self, KeyView(lib, byName), a) == Some(p.publicKey)
  {
    var m :| RoutedVia(d, self, p.name, m) && Host(a) == Host(Address(lib, d, m));
    var n := Owner(lib, d, a);
    if m != n.value {
      AddressesDiffer(lib, d, m, n.value);
    }
  }

  /** An address expected to be routed is in the entry of its owner's next hop. */
  lemma HubRouteMissing(lib: Lib, d: Document, self: string, byName: map<string, PeerInfo>, peers: seq<Peer>, a: Addr)
    requires WellFormed(lib, d) && IsHub(d, self)
    requires forall p <- peers :: GoodHubPeer(lib, d, self, byName, p)
    requires forall m <- byName :: Adjacent(d, self, m) ==> exists p <- peers :: p.name == m
    requires ExpectedRoute(lib, d, self, KeyView(lib, byName), a).Some?
    ensures exists p <- peers :: Host(a) in MaskedSet(p.allowedIPs)
  {
    var n := Owner(lib, d, a).value;
    NextHopAdjacent(lib, d, self, n);
    var p :| p in peers && p.name == NextHop(d, self, n);
    assert GoodHubPeer(lib, d, self, byName, p);
    assert RoutedVia(d, self, p.name, n);
  }

  lemma WantsAddress(peers: seq<Peer>, a: Addr) returns (p: Option<Peer>)
    requires DisjointPrefixes(peers)
    ensures p.Some? ==> p.value in peers && Host(a) in MaskedSet(p.value.allowedIPs)
    ensures p.Some? ==> Host(a) in DesiredTable(peers) && DesiredTable(peers)[Host(a)] == p.value.publicKey
    ensures p.None? ==> Host(a) !in DesiredTable(peers) && forall q <- peers :: Host(a) !in MaskedSet(q.allowedIPs)
  {
    TableEntries(peers);
    if Host(a) in DesiredTable(peers) {
      var q :| q in peers && Host(a) in MaskedSet(q.allowedIPs);
      p := Some(q);
    } else {
      p := None;
    }
  }

  lemma HubRoute(lib: Lib, d: Document, self: string, byName: map<string, PeerInfo>, peers: seq<Peer>, a: Addr)
    requires WellFormed(lib, d) && IsHub(d, self) && DisjointPrefixes(peers)
    requires forall p <- peers :: GoodHubPeer(lib, d, self, byName, p)
    requires forall m <- byName :: Adjacent(d, self, m) ==> exists p <- peers :: p.name == m
    ensures Host(a) in DesiredTable(peers) ==>
              ExpectedRoute(lib, d, self, KeyView(lib, byName), a) == Some(DesiredTable(peers)[Host(a)])
    ensures Host(a) !in DesiredTable(peers) ==> ExpectedRoute(lib, d, self, KeyView(lib, byName), a).None?
  {
    var want := ExpectedRoute(lib, d, self, KeyView(lib, byName), a);
    var p := WantsAddress(peers, a);
    if p.Some? {
      HubRouteFound(lib, d, self, byName, p.value, a);
    } else if want.Some? {
      HubRouteMissing(lib, d, self, byName, peers, a);
    }
  }

  /** The routing meaning of a hub's peer list. */
  lemma HubRoutes(lib: Lib, d: Document, self: Self, byName: map<string, PeerInfo>, keepalive: int)
    requires WellFormed(lib, d) && IsHub(d, self.name)
    requires HubPeers(lib, d, self, byName, keepalive).Ok?
    ensures RoutesAsExpected(lib, d, self.name, KeyView(lib, byName),
                             DesiredTable(HubPeers(lib, d, self, byName, keepalive).value))
  {
    var peers := HubPeers(lib, d, self, byName, keepalive).value;
    HubPeersMeaning(lib, d, self, byName, keepalive);
    HubPeersDistinct(lib, d, self, byName, keepalive);
    HubPeersDisjoint(lib, d, self.name, byName, peers);
    TableEntries(peers);
    var table, view := DesiredTable(peers), KeyView(lib, byName);
    forall q | q in table
      ensures q.bits == 32
    {
      var p :| p in peers && q in MaskedSet(p.allowedIPs);
      assert GoodHubPeer(lib, d, self.name, byName, p);
    }
    forall a
      ensures Lookup(table, a) == ExpectedRoute(lib, d, self.name, view, a)
    {
      HostTableLookup(table, a);
      HubRoute(lib, d, self.name, byName, peers, a);
    }
  }

  /** Every successful computation installs the expected routes for what the node has seen. */
  lemma PeersForRoutes(lib: Lib, d: Document, name: string, registry: seq<PeerInfo>, keepalive: int)
    requires WellFormed(lib, d) && Declared(d, name)
    requires PeersFor(lib, d, FindSelf(lib, d, name).value, registry, keepalive).Ok?
    ensures RoutesAsExpected(lib, d, name, KeyView(lib, ByName(registry)),
                             DesiredTable(PeersFor(lib, d, FindSelf(lib, d, name).value, registry, keepalive).value))
  {
    var self, byName := FindSelf(lib, d, name).value, ByName(registry);
    var peers := PeersFor(lib, d, self, registry, keepalive).value;
    if IsHub(d, name) {
      HubRoutes(lib, d, self, byName, keepalive);
    } else {
      var overlay, p := Overlay(lib, d), peers[0];
      assert peers == [p] && p.allowedIPs == [overlay];
      SinglePeerTable(p, overlay);
      forall a
        ensures Lookup(DesiredTable(peers), a) == ExpectedRoute(lib, d, name, KeyView(lib, byName), a)
      {
        SingleEntryLookup(overlay, p.publicKey, a);
      }
    }
  }

  // ---------- when a peer set can be installed ----------

  /** The nodes whose registrations a node's peer set depends on. */
  predicate DependsOn(d: Document, name: string, m: string)
    requires Declared(d, name)
  {
    if IsHub(d, name) then Adjacent(d, name, m) else m == HubOf(d, name)
  }

  /** The registered nodes that `name` depends on hold different keys. */
  ghost predicate DistinctNeighbours(lib: Lib, d: Document, name: string, byName: map<string, PeerInfo>)
    requires Declared(d, name)
  {
    forall m <- byName, n <- byName :: DependsOn(d, name, m) && DependsOn(d, name, n) && m != n ==>
      lib.parseKey(byName[m].publicKey) != lib.parseKey(byName[n].publicKey)
  }

  lemma PeerIndex(peers: seq<Peer>, m: string) returns (i: nat)
    requires exists p <- peers :: p.name == m
    ensures i < |peers| && peers[i].name == m
  {
    var p :| p in peers && p.name == m;
    i :| 0 <= i < |peers| && peers[i] == p;
  }

  lemma HubPeersInstallable(lib: Lib, d: Document, self: Self, byName: map<string, PeerInfo>, keepalive: int)
    requires WellFormed(lib, d) && IsHub(d, self.name) && HubPeers(lib, d, self, byName, keepalive).Ok?
    ensures Installable(HubPeers(lib, d, self, byName, keepalive).value) <==>
            DistinctNeighbours(lib, d, self.name, byName)
  {
    var peers := HubPeers(lib, d, self, byName, keepalive).value;
    HubPeersMeaning(lib, d, self, byName, keepalive);
    HubPeersDistinct(lib, d, self, byName, keepalive);
    HubPeersDisjoint(lib, d, self.name, byName, peers);
    if DistinctNeighbours(lib, d, self.name, byName) {
      forall i, j | 0 <= i < j < |peers|
        ensures peers[i].publicKey != peers[j].publicKey
      {
        assert GoodHubPeer(lib, d, self.name, byName, peers[i]) && GoodHubPeer(lib, d, self.name, byName, peers[j]);
      }
    }
    if DistinctKeys(peers) {
      forall m, n | m in byName && n in byName && Adjacent(d, self.name, m) && Adjacent(d, self.name, n) && m != n
        ensures lib.parseKey(byName[m].publicKey) != lib.parseKey(byName[n].publicKey)
      {
        var i := PeerIndex(peers, m);
        var j := PeerIndex(peers, n);
        assert GoodHubPeer(lib, d, self.name, byName, peers[i]) && GoodHubPeer(lib, d, self.name, byName, peers[j]);
      }
    }
  }

  lemma OneIsInstallable(peers: seq<Peer>)
    requires |peers| == 1
    ensures Installable(peers)
  {
  }

  /** A computed peer set can be installed exactly when the nodes it depends on hold different keys. */
  lemma PeersForInstallable(lib: Lib, d: Document, name: string, registry: seq<PeerInfo>, keepalive: int)
    requires WellFormed(lib, d) && Declared(d, name)
    requires PeersFor(lib, d, FindSelf(lib, d, name).value, registry, keepalive).Ok?
    ensures Installable(PeersFor(lib, d, FindSelf(lib, d, name).value, registry, keepalive).value) <==>
            DistinctNeighbours(lib, d, name, ByName(registry))
  {
    var self, byName := FindSelf(lib, d, name).value, ByName(registry);
    if IsHub(d, name) {
      HubPeersInstallable(lib, d, self, byName, keepalive);
    } else {
      DeclaredFacts(lib, d, name);
      SpokePeersMeaning(lib, d, self, byName, Overlay(lib, d), keepalive);
      OneIsInstallable(PeersFor(lib, d, self, registry, keepalive).value);
    }
  }

  lemma {:induction false} CollectError(steps: seq<Step>, peers: seq<Peer>)
    requires Collect(steps, peers).Err?
    ensures Err(Collect(steps, peers).error) in steps
  {
    assert steps != [] ==> steps == [steps[0]] + steps[1..];
    if steps != [] && steps[0].Ok? {
      CollectError(steps[1..], if steps[0].value.None? then peers else peers + [steps[0].value.value]);
    }
  }

  lemma {:induction false} HostPrefixesError(lib: Lib, raws: seq<string>)
    ensures HostPrefixes(lib, raws).Err? ==> HostPrefixes(lib, raws).error == BadTunnelIP
  {
    if raws != [] {
      HostPrefixesError(lib, raws[1..]);
    }
  }

  lemma HubStepNeedsEndpoint(lib: Lib, d: Document, self: Self, byName: map<string, PeerInfo>, keepalive: int, i: nat)
    requires WellFormed(lib, d) && i < |d.spec.hubs|
    requires forall n <- byName :: IsHub(d, n) ==> byName[n].endpoint != ""
    ensures HubStep(lib, d, self, d.spec.hubs[i], byName, keepalive) != Err(NoEndpoint)
  {
    HubEntry(lib, d, i);
    HostPrefixesError(lib, MeshIPs(d, d.spec.hubs[i]));
  }

  lemma StepNeedsEndpoint(lib: Lib, d: Document, self: Self, byName: map<string, PeerInfo>, keepalive: int, i: nat)
    requires WellFormed(lib, d) && i < |AllSteps(lib, d, self, byName, keepalive)|
    requires forall n <- byName :: IsHub(d, n) ==> byName[n].endpoint != ""
    ensures AllSteps(lib, d, self, byName, keepalive)[i] != Err(NoEndpoint)
  {
    if i < |d.spec.hubs| {
      HubStepNeedsEndpoint(lib, d, self, byName, keepalive, i);
    }
  }

  /** If every hub in view states an endpoint, no computation fails for want of one. */
  lemma EndpointsSuffice(lib: Lib, d: Document, name: string, registry: seq<PeerInfo>, keepalive: int)
    requires WellFormed(lib, d) && Declared(d, name)
    requires forall n <- ByName(registry) :: IsHub(d, n) ==> ByName(registry)[n].endpoint != ""
    ensures PeersFor(lib, d, FindSelf(lib, d, name).value, registry, keepalive) != Err(NoEndpoint)
  {
    var self, byName := FindSelf(lib, d, name).value, ByName(registry);
    if IsHub(d, name) {
      var steps := AllSteps(lib, d, self, byName, keepalive);
      if Collect(steps, []).Err? {
        CollectError(steps, []);
        var i :| 0 <= i < |steps| && steps[i] == Err(Collect(steps, []).error);
        StepNeedsEndpoint(lib, d, self, byName, keepalive, i);
      }
    } else {
      DeclaredFacts(lib, d, name);
    }
  }

  // ---------- when a peer set can be computed ----------

  /** The registered node can be peered with: its key parses and, for a hub, its endpoint resolves. */
  predicate Dialable(lib: Lib, d: Document, byName: map<string, PeerInfo>, m: string)
    requires m in byName
  {
    && lib.parseKey(byName[m].publicKey).Some?
    && (IsHub(d, m) ==>
          && ResolveEndpoint(lib, byName[m].endpoint).Ok?
          && ResolveEndpoint(lib, byName[m].endpoint).value.Some?)
  }

  lemma {:induction false} CollectOk(steps: seq<Step>, peers: seq<Peer>)
    requires forall i | 0 <= i < |steps| :: steps[i].Ok?
    ensures Collect(steps, peers).Ok?
  {
    if steps != [] {
      CollectOk(steps[1..], if steps[0].value.None? then peers else peers + [steps[0].value.value]);
    }
  }

  lemma NodeParses(lib: Lib, d: Document, i: nat)
    requires WellFormed(lib, d) && i < |d.spec.hubs| + |d.spec.agents|
    ensures lib.parseAddr(if i < |d.spec.hubs| then d.spec.hubs[i].tunnelIP
                          else d.spec.agents[i - |d.spec.hubs|].tunnelIP).Some?
  {
    var raws := NodeIPs(d.spec.hubs, d.spec.agents);
    assert raws[i] in raws;
  }

  /** In a well-formed document the mesh addresses of a hub all parse. */
  lemma MeshParses(lib: Lib, d: Document, h: Hub)
    requires WellFormed(lib, d) && h in d.spec.hubs
    ensures HostPrefixes(lib, MeshIPs(d, h)).Ok?
  {
    var raws := MeshIPs(d, h);
    forall k | 0 <= k < |raws|
      ensures lib.parseAddr(raws[k]).Some?
    {
      if k == 0 {
        var i :| 0 <= i < |d.spec.hubs| && d.spec.hubs[i] == h;
        NodeParses(lib, d, i);
      } else {
        var a := AgentsOf(d.spec.agents, h.name)[k - 1];
        assert a in AgentsOf(d.spec.agents, h.name);
        var j := AgentIndex(d, a);
        NodeParses(lib, d, |d.spec.hubs| + j);
      }
    }
  }

  lemma HubStepSucceeds(lib: Lib, d: Document, self: Self, byName: map<string, PeerInfo>, keepalive: int, i: nat)
    requires WellFormed(lib, d) && i < |d.spec.hubs|
    ensures HubStep(lib, d, self, d.spec.hubs[i], byName, keepalive).Ok? <==>
            (d.spec.hubs[i].name in byName && d.spec.hubs[i].name != self.name ==>
               Dialable(lib, d, byName, d.spec.hubs[i].name))
  {
    HubEntry(lib, d, i);
    MeshParses(lib, d, d.spec.hubs[i]);
  }

  lemma SpokeStepSucceeds(lib: Lib, d: Document, byName: map<string, PeerInfo>, j: nat)
    requires WellFormed(lib, d) && j < |d.spec.agents|
    ensures SpokeStep(lib, d.spec.agents[j], byName).Ok? <==>
            (d.spec.agents[j].name in byName ==> Dialable(lib, d, byName, d.spec.agents[j].name))
  {
    AgentEntry(lib, d, j);
    var raws := NodeIPs(d.spec.hubs, d.spec.agents);
    assert raws[|d.spec.hubs| + j] in raws;
  }

  lemma StepSucceeds(lib: Lib, d: Document, self: Self, byName: map<string, PeerInfo>, keepalive: int, i: nat)
    requires WellFormed(lib, d) && i < |AllSteps(lib, d, self, byName, keepalive)|
    requires forall m <- byName :: Adjacent(d, self.name, m) ==> Dialable(lib, d, byName, m)
    ensures AllSteps(lib, d, self, byName, keepalive)[i].Ok?
  {
    if i < |d.spec.hubs| {
      HubEntry(lib, d, i);
      HubStepSucceeds(lib, d, self, byName, keepalive, i);
    } else {
      var a := AgentsOf(d.spec.agents, self.name)[i - |d.spec.hubs|];
      assert a in AgentsOf(d.spec.agents, self.name);
      var j := AgentIndex(d, a);
      AgentEntry(lib, d, j);
      SpokeStepSucceeds(lib, d, byName, j);
    }
  }

  lemma SpokeStepListed(lib: Lib, d: Document, self: Self, byName: map<string, PeerInfo>, keepalive: int, a: Agent)
    requires a in AgentsOf(d.spec.agents, self.name)
    ensures SpokeStep(lib, a, byName) in AllSteps(lib, d, self, byName, keepalive)
  {
    var mine, steps := AgentsOf(d.spec.agents, self.name), AllSteps(lib, d, self, byName, keepalive);
    var k :| 0 <= k < |mine| && mine[k] == a;
    assert steps[|d.spec.hubs| + k] == SpokeStep(lib, a, byName);
  }

  lemma StepForNeighbour(lib: Lib, d: Document, self: Self, byName: map<string, PeerInfo>, keepalive: int, m: string)
    requires WellFormed(lib, d) && m in byName && Adjacent(d, self.name, m)
    requires forall s <- AllSteps(lib, d, self, byName, keepalive) :: s.Ok?
    ensures Dialable(lib, d, byName, m)
  {
    var steps := AllSteps(lib, d, self, byName, keepalive);
    if IsHub(d, m) {
      var i :| 0 <= i < |d.spec.hubs| && d.spec.hubs[i] == FindHubIn(d.spec.hubs, m).value;
      assert steps[i] == HubStep(lib, d, self, d.spec.hubs[i], byName, keepalive) && steps[i] in steps;
      HubStepSucceeds(lib, d, self, byName, keepalive, i);
    } else {
      var a := FindAgentIn(d.spec.agents, m).value;
      var j := AgentIndex(d, a);
      SpokeStepListed(lib, d, self, byName, keepalive, a);
      SpokeStepSucceeds(lib, d, byName, j);
    }
  }

  /** A hub's peer set can be computed exactly when every registered neighbour can be dialled. */
  lemma HubPeersSucceeds(lib: Lib, d: Document, self: Self, byName: map<string, PeerInfo>, keepalive: int)
    requires WellFormed(lib, d) && IsHub(d, self.name)
    ensures HubPeers(lib, d, self, byName, keepalive).Ok? <==>
            forall m <- byName :: Adjacent(d, self.name, m) ==> Dialable(lib, d, byName, m)
  {
    var steps := AllSteps(lib, d, self, byName, keepalive);
    if forall m <- byName :: Adjacent(d, self.name, m) ==> Dialable(lib, d, byName, m) {
      forall i | 0 <= i < |steps|
        ensures steps[i].Ok?
      {
        StepSucceeds(lib, d, self, byName, keepalive, i);
      }
      CollectOk(steps, []);
    }
    if Collect(steps, []).Ok? {
      CollectFacts(steps, []);
      forall m | m in byName && Adjacent(d, self.name, m)
        ensures Dialable(lib, d, byName, m)
      {
        StepForNeighbour(lib, d, self, byName, keepalive, m);
      }
    }
  }

  /** The settings of each peer: hubs are dialled at their resolved endpoint and kept alive, a hub's spokes are not. */
  ghost predicate HasSettings(lib: Lib, d: Document, byName: map<string, PeerInfo>, keepalive: int, p: Peer) {
    && p.name in byName
    && if IsHub(d, p.name)
       then && p.endpoint.Some? && ResolveEndpoint(lib, byName[p.name].endpoint) == Ok(p.endpoint)
            && p.keepalive == keepalive
       else p.endpoint.None? && p.keepalive == 0
  }

  /** A spoke's list is its hub, dialled and kept alive; it exists exactly when the hub is registered and dialable. */
  lemma SpokePeersMeaning(lib: Lib, d: Document, self: Self, byName: map<string, PeerInfo>, overlay: Prefix,
                          keepalive: int)
    requires IsHub(d, self.hubName) && forall n <- byName :: byName[n].name == n
    ensures var r := SpokePeers(lib, self, byName, overlay, keepalive);
            && (r.Ok? <==> self.hubName in byName && Dialable(lib, d, byName, self.hubName))
            && (r.Ok? ==> |r.value| == 1 && r.value[0].name == self.hubName && r.value[0].allowedIPs == [overlay] &&
                          HasSettings(lib, d, byName, keepalive, r.value[0]))
  {
  }

  /**
   When a peer set can be computed: exactly when every node it depends on, if registered, can be
   dialled, and for a spoke its hub is registered.
   */
  lemma PeersForSucceeds(lib: Lib, d: Document, name: string, registry: seq<PeerInfo>, keepalive: int)
    requires WellFormed(lib, d) && Declared(d, name)
    ensures PeersFor(lib, d, FindSelf(lib, d, name).value, registry, keepalive).Ok? <==>
            && (forall m <- ByName(registry) :: DependsOn(d, name, m) ==> Dialable(lib, d, ByName(registry), m))
            && (IsSpoke(d, name) ==> HubOf(d, name) in ByName(registry))
  {
    var self, byName := FindSelf(lib, d, name).value, ByName(registry);
    if IsHub(d, name) {
      HubPeersSucceeds(lib, d, self, byName, keepalive);
      assert forall m <- byName :: DependsOn(d, name, m) <==> Adjacent(d, name, m);
    } else {
      DeclaredFacts(lib, d, name);
      SpokePeersMeaning(lib, d, self, byName, Overlay(lib, d), keepalive);
      assert forall m <- byName :: DependsOn(d, name, m) <==> m == HubOf(d, name);
    }
  }

  lemma HubStepSettings(lib: Lib, d: Document, self: Self, byName: map<string, PeerInfo>, keepalive: int, i: nat,
                        p: Peer)
    requires WellFormed(lib, d) && i < |d.spec.hubs|
    requires HubStep(lib, d, self, d.spec.hubs[i], byName, keepalive) == Ok(Some(p))
    ensures HasSettings(lib, d, byName, keepalive, p)
  {
    HubEntry(lib, d, i);
  }

  lemma SpokeStepSettings(lib: Lib, d: Document, byName: map<string, PeerInfo>, a: Agent, keepalive: int, p: Peer)
    requires WellFormed(lib, d) && a in d.spec.agents && SpokeStep(lib, a, byName) == Ok(Some(p))
    ensures HasSettings(lib, d, byName, keepalive, p)
  {
    var j := AgentIndex(d, a);
    AgentEntry(lib, d, j);
  }

  lemma StepSettings(lib: Lib, d: Document, self: Self, byName: map<string, PeerInfo>, keepalive: int, i: nat, p: Peer)
    requires WellFormed(lib, d) && i < |AllSteps(lib, d, self, byName, keepalive)|
    requires AllSteps(lib, d, self, byName, keepalive)[i] == Ok(Some(p))
    ensures HasSettings(lib, d, byName, keepalive, p)
  {
    if i < |d.spec.hubs| {
      HubStepSettings(lib, d, self, byName, keepalive, i, p);
    } else {
      SpokeStepSettings(lib, d, byName, AgentsOf(d.spec.agents, self.name)[i - |d.spec.hubs|], keepalive, p);
    }
  }

  lemma HubPeerSettings(lib: Lib, d: Document, self: Self, byName: map<string, PeerInfo>, keepalive: int)
    requires WellFormed(lib, d) && IsHub(d, self.name) && HubPeers(lib, d, self, byName, keepalive).Ok?
    ensures forall p <- HubPeers(lib, d, self, byName, keepalive).value :: HasSettings(lib, d, byName, keepalive, p)
  {
    var steps := AllSteps(lib, d, self, byName, keepalive);
    CollectFacts(steps, []);
    forall p | p in Collect(steps, []).value
      ensures HasSettings(lib, d, byName, keepalive, p)
    {
      var i :| 0 <= i < |steps| && steps[i] == Ok(Some(p));
      StepSettings(lib, d, self, byName, keepalive, i, p);
    }
  }

  lemma PeerSettings(lib: Lib, d: Document, name: string, registry: seq<PeerInfo>, keepalive: int)
    requires WellFormed(lib, d) && Declared(d, name)
    requires PeersFor(lib, d, FindSelf(lib, d, name).value, registry, keepalive).Ok?
    ensures forall p <- PeersFor(lib, d, FindSelf(lib, d, name).value, registry, keepalive).value ::
              HasSettings(lib, d, ByName(registry), keepalive, p) && DependsOn(d, name, p.name)
  {
    var self, byName := FindSelf(lib, d, name).value, ByName(registry);
    if IsHub(d, name) {
      HubPeerSettings(lib, d, self, byName, keepalive);
      HubPeersMeaning(lib, d, self, byName, keepalive);
      assert forall p <- HubPeers(lib, d, self, byName, keepalive).value :: GoodHubPeer(lib, d, name, byName, p);
    } else {
      DeclaredFacts(lib, d, name);
      SpokePeersMeaning(lib, d, self, byName, Overlay(lib, d), keepalive);
    }
  }

  /** Whatever a node depends on is declared. */
  lemma DependencyDeclared(lib: Lib, d: Document, name: string, m: string)
    requires WellFormed(lib, d) && Declared(d, name) && DependsOn(d, name, m)
    ensures Declared(d, m) && m != name
  {
    DeclaredFacts(lib, d, name);
  }

  /** A computed list holds exactly the nodes in view that the node depends on, each with its own key. */
  lemma PeersForMembers(lib: Lib, d: Document, name: string, registry: seq<PeerInfo>, keepalive: int)
    requires WellFormed(lib, d) && Declared(d, name)
    requires PeersFor(lib, d, FindSelf(lib, d, name).value, registry, keepalive).Ok?
    ensures var peers := PeersFor(lib, d, FindSelf(lib, d, name).value, registry, keepalive).value;
            && (forall p <- peers ::
                  && p.name in ByName(registry) && DependsOn(d, name, p.name)
                  && lib.parseKey(ByName(registry)[p.name].publicKey) == Some(p.publicKey))
            && (forall m <- ByName(registry) :: DependsOn(d, name, m) ==> exists p <- peers :: p.name == m)
  {
    var self, byName := FindSelf(lib, d, name).value, ByName(registry);
    var peers := PeersFor(lib, d, self, registry, keepalive).value;
    if IsHub(d, name) {
      HubPeersMeaning(lib, d, self, byName, keepalive);
      forall p | p in peers
        ensures p.name in byName && DependsOn(d, name, p.name)
        ensures lib.parseKey(byName[p.name].publicKey) == Some(p.publicKey)
      {
        assert GoodHubPeer(lib, d, name, byName, p);
      }
    } else {
      DeclaredFacts(lib, d, name);
      SpokePeersMeaning(lib, d, self, byName, Overlay(lib, d), keepalive);
      assert peers == [peers[0]] && peers[0] in peers;
    }
  }
}
