/**
 The network as a whole: independently computed tables and chains, and the packets
 that cross them.  A tunnel hop is the egress lookup in the sender's AllowedIPs and
 the ingress check of the source address at the receiver (cryptokey routing,
 section 2 of the WireGuard paper).
 */
module Forwarding {
  import opened Net
  import opened Spec
  import opened Routing
  import opened Tables
  import opened Netpolicy

  /** One node at run time: its AllowedIPs table and the filter its FORWARD applies to transit traffic. */
  datatype Node = Node(allowed: map<Prefix, Key>, forwards: Packet -> bool)

  /** A deployment: the shared document, each node's own key, and each node's state. */
  datatype Fabric = Fabric(lib: Lib, doc: Document, keys: map<string, Key>, nodes: map<string, Node>)

  /** Every declared node exists and has a key of its own. */
  ghost predicate ValidFabric(f: Fabric) {
    && WellFormed(f.lib, f.doc)
    && Injective(f.keys)
    && forall n | Declared(f.doc, n) :: n in f.nodes && n in f.keys
  }

  /** The declared node holding key `k`, if any. */
  ghost function Holder(f: Fabric, k: Key): (r: Option<string>)
    ensures r.Some? ==> Declared(f.doc, r.value) && r.value in f.keys && f.keys[r.value] == k
    ensures r.None? ==> forall n | Declared(f.doc, n) && n in f.keys :: f.keys[n] != k
  {
    if n: string :| Declared(f.doc, n) && n in f.keys && f.keys[n] == k then Some(n) else None
  }

  /** One tunnel hop from `at`: the node the packet arrives at, unless a lookup or the source check drops it. */
  ghost function TunnelHop(f: Fabric, at: string, p: Packet): (r: Option<string>)
    requires ValidFabric(f) && Declared(f.doc, at)
    ensures r.Some? ==> Declared(f.doc, r.value)
  {
    var out := Lookup(f.nodes[at].allowed, p.dst);
    if out.None? then None
    else
      var to := Holder(f, out.value);
      if to.None? || Lookup(f.nodes[to.value].allowed, p.src) != Some(f.keys[at]) then None
      else to
  }

  /** A hop happens exactly if the sender routes the destination, and the receiver the source, to the other's key. */
  lemma TunnelHopMeaning(f: Fabric, at: string, to: string, p: Packet)
    requires ValidFabric(f) && Declared(f.doc, at) && Declared(f.doc, to)
    ensures TunnelHop(f, at, p) == Some(to) <==>
            && Lookup(f.nodes[at].allowed, p.dst) == Some(f.keys[to])
            && Lookup(f.nodes[to].allowed, p.src) == Some(f.keys[at])
  {
    assert Holder(f, f.keys[to]) == Some(to);
  }

  datatype Outcome =
    | Delivered          // this node owns the destination address
    | Outside            // not overlay traffic: handed to another interface
    | Filtered           // dropped by the FORWARD chain
    | Unroutable         // dropped by an AllowedIPs lookup or a source check
    | Stray              // reached a spoke that is not its destination
    | Next(name: string) // sent through the tunnel and accepted by that node

  /** What happens to a packet at a node, where it either originates or arrived through the tunnel. */
  ghost function Handle(f: Fabric, at: string, p: Packet, transit: bool): (r: Outcome)
    requires ValidFabric(f) && Declared(f.doc, at)
    ensures r.Next? ==> Declared(f.doc, r.name)
  {
    if p.dst == Address(f.lib, f.doc, at) then Delivered
    else if transit && IsSpoke(f.doc, at) then Stray
    else if !Contains(Overlay(f.lib, f.doc), p.dst) then Outside
    else if transit && !f.nodes[at].forwards(p) then Filtered
    else
      var to := TunnelHop(f, at, p);
      if to.None? then Unroutable else Next(to.value)
  }

  /** The nodes a packet visits, in order, from its origin. */
  ghost predicate Trace(f: Fabric, p: Packet, path: seq<string>)
    requires ValidFabric(f)
  {
    && path != []
    && (forall i | 0 <= i < |path| :: Declared(f.doc, path[i]))
    && forall i | 0 <= i < |path| - 1 :: Handle(f, path[i], p, i > 0) == Next(path[i + 1])
  }

  // ---------- loop freedom under partial views ----------

  /** Whatever a node routes, it routes to the next hop; which routes it has may differ from node to node. */
  ghost predicate SafeTables(f: Fabric)
    requires ValidFabric(f)
  {
    forall n | Declared(f.doc, n) :: RoutesSafely(f.lib, f.doc, n, f.keys, f.nodes[n].allowed)
  }

  ghost predicate SeesPart(f: Fabric, view: map<string, Key>) {
    forall m <- view :: m in f.keys && view[m] == f.keys[m]
  }

  /** Every node routes for the registrations it has seen, which may differ from node to node. */
  ghost predicate PartialViews(f: Fabric)
    requires ValidFabric(f)
  {
    forall n | Declared(f.doc, n) :: exists view ::
      SeesPart(f, view) && RoutesAsExpected(f.lib, f.doc, n, view, f.nodes[n].allowed)
  }

  /** Fewer keys in view give fewer routes, not other ones. */
  lemma PartIsSafe(f: Fabric, n: string, view: map<string, Key>)
    requires ValidFabric(f) && Declared(f.doc, n) && SeesPart(f, view)
    requires RoutesAsExpected(f.lib, f.doc, n, view, f.nodes[n].allowed)
    ensures RoutesSafely(f.lib, f.doc, n, f.keys, f.nodes[n].allowed)
  {
    forall a
      ensures ExpectedRoute(f.lib, f.doc, n, view, a).Some? ==>
                ExpectedRoute(f.lib, f.doc, n, view, a) == ExpectedRoute(f.lib, f.doc, n, f.keys, a)
    {
    }
  }

  lemma PartialViewsAreSafe(f: Fabric)
    requires ValidFabric(f) && PartialViews(f)
    ensures SafeTables(f)
  {
    forall n | Declared(f.doc, n)
      ensures RoutesSafely(f.lib, f.doc, n, f.keys, f.nodes[n].allowed)
    {
      var view :| SeesPart(f, view) && RoutesAsExpected(f.lib, f.doc, n, view, f.nodes[n].allowed);
      PartIsSafe(f, n, view);
    }
  }

  /** A hop that happens goes to the node whose key is expected. */
  lemma HopFollowsRoute(f: Fabric, at: string, p: Packet)
    requires ValidFabric(f) && SafeTables(f) && Declared(f.doc, at) && TunnelHop(f, at, p).Some?
    ensures ExpectedRoute(f.lib, f.doc, at, f.keys, p.dst) == Some(f.keys[TunnelHop(f, at, p).value])
  {
    assert RoutesSafely(f.lib, f.doc, at, f.keys, f.nodes[at].allowed);
  }

  /** An accepted hop goes where the topology says; a hub only sends towards a declared owner. */
  lemma HopFollowsTopology(f: Fabric, at: string, p: Packet)
    requires ValidFabric(f) && SafeTables(f) && Declared(f.doc, at) && TunnelHop(f, at, p).Some?
    ensures IsSpoke(f.doc, at) ==> TunnelHop(f, at, p).value == HubOf(f.doc, at) && IsHub(f.doc, HubOf(f.doc, at))
    ensures IsHub(f.doc, at) ==>
              var n := Owner(f.lib, f.doc, p.dst);
              n.Some? && n.value != at && TunnelHop(f, at, p).value == NextHop(f.doc, at, n.value)
  {
    HopFollowsRoute(f, at, p);
    DeclaredFacts(f.lib, f.doc, at);
  }

  /** How far a node is from the owner of the destination: spoke, hub, the owner's hub, the owner. */
  ghost function Distance(d: Document, n: Option<string>, at: string): (r: nat) {
    if n == Some(at) then 0
    else if n.Some? && IsSpoke(d, n.value) && HubOf(d, n.value) == at then 1
    else if IsHub(d, at) then 2
    else 3
  }

  /** From a hub the next hop towards the owner is closer, and a spoke only if it is the owner. */
  lemma HubComesCloser(d: Document, n: string, at: string)
    requires IsHub(d, at) && Declared(d, n) && n != at && (IsSpoke(d, n) ==> IsHub(d, HubOf(d, n)))
    ensures Distance(d, Some(n), NextHop(d, at, n)) < Distance(d, Some(n), at)
    ensures IsSpoke(d, NextHop(d, at, n)) ==> NextHop(d, at, n) == n
  {
  }

  /** From a spoke its hub is closer to anything but the spoke itself. */
  lemma SpokeComesCloser(d: Document, n: Option<string>, at: string)
    requires IsSpoke(d, at) && IsHub(d, HubOf(d, at)) && n != Some(at)
    requires n.Some? && IsSpoke(d, n.value) ==> IsHub(d, HubOf(d, n.value))
    ensures Distance(d, n, HubOf(d, at)) < Distance(d, n, at)
  {
  }

  lemma NextIsElsewhere(f: Fabric, at: string, p: Packet, transit: bool)
    requires ValidFabric(f) && Declared(f.doc, at) && Handle(f, at, p, transit).Next?
    ensures TunnelHop(f, at, p) == Some(Handle(f, at, p, transit).name)
    ensures Owner(f.lib, f.doc, p.dst) != Some(at)
    ensures Contains(Overlay(f.lib, f.doc), p.dst)
  {
  }

  /** Each hop brings the packet strictly closer, and never to a spoke that is not the destination. */
  lemma HopComesCloser(f: Fabric, at: string, p: Packet, transit: bool)
    requires ValidFabric(f) && SafeTables(f) && Declared(f.doc, at)
    requires Handle(f, at, p, transit).Next?
    ensures var n, to := Owner(f.lib, f.doc, p.dst), Handle(f, at, p, transit).name;
            && Distance(f.doc, n, to) < Distance(f.doc, n, at)
            && (IsSpoke(f.doc, to) ==> n == Some(to))
  {
    NextIsElsewhere(f, at, p, transit);
    HopFollowsTopology(f, at, p);
    var n := Owner(f.lib, f.doc, p.dst);
    if n.Some? {
      DeclaredFacts(f.lib, f.doc, n.value);
    }
    if IsHub(f.doc, at) {
      HubComesCloser(f.doc, n.value, at);
    } else {
      SpokeComesCloser(f.doc, n, at);
    }
  }

  lemma {:induction false} TraceShrinks(f: Fabric, p: Packet, path: seq<string>, i: nat)
    requires ValidFabric(f) && SafeTables(f) && Trace(f, p, path) && i < |path|
    ensures i + Distance(f.doc, Owner(f.lib, f.doc, p.dst), path[i]) <= 3
    ensures i > 0 && IsSpoke(f.doc, path[i]) ==> Owner(f.lib, f.doc, p.dst) == Some(path[i])
  {
    if i > 0 {
      TraceShrinks(f, p, path, i - 1);
      assert Handle(f, path[i - 1], p, i - 1 > 0) == Next(path[i]);
      HopComesCloser(f, path[i - 1], p, i - 1 > 0);
    }
  }

  /** A declared node owns its address. */
  lemma AddressOwner(lib: Lib, d: Document, n: string)
    requires WellFormed(lib, d) && Declared(d, n)
    ensures Owner(lib, d, Address(lib, d, n)) == Some(n)
  {
    var m := Owner(lib, d, Address(lib, d, n));
    if m.value != n {
      AddressesDiffer(lib, d, m.value, n);
    }
  }

  /** How a packet can end at a node it was rightly sent to. */
  lemma Ending(f: Fabric, at: string, p: Packet, transit: bool)
    requires ValidFabric(f) && Declared(f.doc, at)
    requires transit ==> Contains(Overlay(f.lib, f.doc), p.dst)
    requires transit && IsSpoke(f.doc, at) ==> Owner(f.lib, f.doc, p.dst) == Some(at)
    ensures Handle(f, at, p, transit).Delivered? <==> Owner(f.lib, f.doc, p.dst) == Some(at)
    ensures Handle(f, at, p, transit).Outside? ==> !transit
    ensures !Handle(f, at, p, transit).Stray?
  {
    AddressOwner(f.lib, f.doc, at);
  }

  /**
   Loop freedom: whichever of their routes the nodes have and whatever the filters decide, every packet,
   from any node and with any addresses, makes at most three tunnel hops; where it is handed over it
   has reached the owner of its destination address, and it never strays to another spoke.
   */
  lemma LoopFreedom(f: Fabric, p: Packet, path: seq<string>)
    requires ValidFabric(f) && SafeTables(f) && Trace(f, p, path)
    ensures |path| - 1 <= 3
    ensures var last := Handle(f, path[|path| - 1], p, |path| > 1);
            && (last.Delivered? ==> Owner(f.lib, f.doc, p.dst) == Some(path[|path| - 1]))
            && (last.Outside? ==> |path| == 1)
            && !last.Stray?
            && (|path| == 4 ==> last.Delivered?)
  {
    var n := |path| - 1;
    TraceShrinks(f, p, path, n);
    if n > 0 {
      assert Handle(f, path[n - 1], p, n - 1 > 0) == Next(path[n]);
      NextIsElsewhere(f, path[n - 1], p, n - 1 > 0);
    }
    Ending(f, path[n], p, n > 0);
  }

  /** In particular when each node has seen any part of the registry, and not the same part. */
  lemma LoopFreedomOfViews(f: Fabric, p: Packet, path: seq<string>)
    requires ValidFabric(f) && PartialViews(f) && Trace(f, p, path)
    ensures |path| - 1 <= 3
    ensures var last := Handle(f, path[|path| - 1], p, |path| > 1);
            !last.Stray? && (last.Delivered? ==> Owner(f.lib, f.doc, p.dst) == Some(path[|path| - 1]))
  {
    PartialViewsAreSafe(f);
    LoopFreedom(f, p, path);
  }

  // ---------- end-to-end delivery ----------

  /** Transit traffic follows the chain where the chain decides; RETURN leaves it to the rest of FORWARD. */
  ghost predicate Enforces(forwards: Packet -> bool, chain: seq<ChainRule>) {
    && (forall p :: Verdict(chain, p) == Some(Accept) ==> forwards(p))
    && (forall p :: Verdict(chain, p) == Some(Drop) ==> !forwards(p))
  }

  /** The filter enforces the compiled policy of the document. */
  ghost predicate EnforcesPolicy(lib: Lib, d: Document, forwards: Packet -> bool) {
    exists c :: IsCompiled(lib, d, c) && Enforces(forwards, Chain(c))
  }

  /** Everyone has registered and reconciled: full views, and the policy enforced on every hub. */
  ghost predicate Converged(f: Fabric)
    requires ValidFabric(f)
  {
    && (forall n | Declared(f.doc, n) :: RoutesAsExpected(f.lib, f.doc, n, f.keys, f.nodes[n].allowed))
    && (forall n | IsHub(f.doc, n) :: EnforcesPolicy(f.lib, f.doc, f.nodes[n].forwards))
  }

  /** The declared policy between two nodes: hubs talk to everyone, spokes as the ACL permits. */
  ghost predicate Permitted(d: Document, a: string, b: string)
    requires Declared(d, a) && Declared(d, b)
  {
    IsHub(d, a) || IsHub(d, b) || AclPermits(d, a, b)
  }

  /** Spoke `a` is in one of the groups. */
  ghost predicate InGroups(d: Document, a: string, gs: seq<string>)
    requires IsSpoke(d, a)
  {
    exists g <- gs :: g in FindAgentIn(d.spec.agents, a).value.groups
  }

  /** Some allow rule covers the two spokes and no deny rule does. */
  ghost predicate AclPermits(d: Document, a: string, b: string)
    requires IsSpoke(d, a) && IsSpoke(d, b)
  {
    && (exists r <- d.spec.acls :: r.action == "allow" && InGroups(d, a, r.from) && InGroups(d, b, r.to))
    && !(exists r <- d.spec.acls :: r.action == "deny" && InGroups(d, a, r.from) && InGroups(d, b, r.to))
  }

  /** Group membership by address is group membership by name. */
  lemma MemberByName(lib: Lib, d: Document, a: string, gs: seq<string>)
    requires WellFormed(lib, d) && IsSpoke(d, a)
    ensures Address(lib, d, a) in MembersOf(lib, d.spec.agents, gs) <==> InGroups(d, a, gs)
  {
    var me := FindAgentIn(d.spec.agents, a).value;
    DeclaredFacts(lib, d, a);
    if InGroups(d, a, gs) {
      var g :| g in gs && g in me.groups;
      assert Address(lib, d, a) in MemberSet(lib, d.spec.agents, g);
    }
    if Address(lib, d, a) in MembersOf(lib, d.spec.agents, gs) {
      var g :| g in gs && Address(lib, d, a) in MemberSet(lib, d.spec.agents, g);
      var x :| x in d.spec.agents && g in x.groups && lib.parseAddr(x.tunnelIP) == Some(Address(lib, d, a));
      var i := AgentIndex(d, x);
      AgentEntry(lib, d, i);
      if x.name != a {
        AddressesDiffer(lib, d, x.name, a);
      }
    }
  }

  lemma CoveredByName(lib: Lib, d: Document, a: string, b: string, allow: bool)
    requires WellFormed(lib, d) && IsSpoke(d, a) && IsSpoke(d, b) && a != b
    ensures Covered(lib, d.spec.agents, d.spec.acls, allow, (Address(lib, d, a), Address(lib, d, b))) <==>
            exists r <- d.spec.acls ::
              && r.action == (if allow then ACTION_ALLOW else ACTION_DENY)
              && InGroups(d, a, r.from) && InGroups(d, b, r.to)
  {
    AddressesDiffer(lib, d, a, b);
    forall r | r in d.spec.acls
      ensures (Address(lib, d, a), Address(lib, d, b)) in AclPairs(lib, d.spec.agents, r) <==>
              InGroups(d, a, r.from) && InGroups(d, b, r.to)
      ensures r.action == ACTION_ALLOW || r.action == ACTION_DENY
    {
      MemberByName(lib, d, a, r.from);
      MemberByName(lib, d, b, r.to);
      assert WellFormedAcl(d.spec.groups, r);
    }
  }

  lemma HubByAddress(lib: Lib, d: Document, a: string)
    requires WellFormed(lib, d) && Declared(d, a)
    ensures Address(lib, d, a) in HubList(lib, d.spec.hubs) <==> IsHub(d, a)
  {
    var hubs := d.spec.hubs;
    HubListDistinct(lib, d);
    if IsHub(d, a) {
      var i :| 0 <= i < |hubs| && hubs[i] == FindHubIn(hubs, a).value;
      assert HubList(lib, hubs)[i] == Address(lib, d, a);
    }
    if Address(lib, d, a) in HubList(lib, hubs) {
      var i :| 0 <= i < |hubs| && HubList(lib, hubs)[i] == Address(lib, d, a);
      HubEntry(lib, d, i);
      if hubs[i].name != a {
        AddressesDiffer(lib, d, hubs[i].name, a);
      }
    }
  }

  /** Between two spokes the declared verdict is the ACL's. */
  lemma SpokesDecided(lib: Lib, d: Document, a: string, b: string)
    requires WellFormed(lib, d) && IsSpoke(d, a) && IsSpoke(d, b) && a != b
    ensures var p := (Address(lib, d, a), Address(lib, d, b));
            AclPermits(d, a, b) <==>
              Covered(lib, d.spec.agents, d.spec.acls, true, p) && !Covered(lib, d.spec.agents, d.spec.acls, false, p)
  {
    CoveredByName(lib, d, a, b, true);
    CoveredByName(lib, d, a, b, false);
  }

  /** The compiled chain accepts traffic between two nodes exactly when the policy permits it, and else drops it. */
  lemma ChainDecides(lib: Lib, d: Document, c: Compiled, a: string, b: string)
    requires WellFormed(lib, d) && IsCompiled(lib, d, c) && Declared(d, a) && Declared(d, b) && a != b
    ensures Verdict(Chain(c), Packet(Address(lib, d, a), Address(lib, d, b))) ==
            Some(if Permitted(d, a, b) then Accept else Drop)
  {
    ChainMeaning(lib, d, c, Packet(Address(lib, d, a), Address(lib, d, b)));
    HubByAddress(lib, d, a);
    HubByAddress(lib, d, b);
    DeclaredFacts(lib, d, a);
    DeclaredFacts(lib, d, b);
    if IsSpoke(d, a) && IsSpoke(d, b) {
      SpokesDecided(lib, d, a, b);
    }
  }

  /** So a filter that enforces the policy lets through exactly what is permitted. */
  lemma PolicyDecides(lib: Lib, d: Document, forwards: Packet -> bool, a: string, b: string)
    requires WellFormed(lib, d) && EnforcesPolicy(lib, d, forwards) && Declared(d, a) && Declared(d, b) && a != b
    ensures forwards(Packet(Address(lib, d, a), Address(lib, d, b))) <==> Permitted(d, a, b)
  {
    var c :| IsCompiled(lib, d, c) && Enforces(forwards, Chain(c));
    ChainDecides(lib, d, c, a, b);
  }

  // ---------- routes ----------

  /** With every key in view, the expected route to another node is its next hop. */
  lemma ExpectedBetween(lib: Lib, d: Document, keys: map<string, Key>, at: string, n: string)
    requires WellFormed(lib, d) && Declared(d, at) && Declared(d, n) && at != n
    requires forall m | Declared(d, m) :: m in keys
    ensures Declared(d, NextHop(d, at, n))
    ensures ExpectedRoute(lib, d, at, keys, Address(lib, d, n)) == Some(keys[NextHop(d, at, n)])
  {
    DeclaredFacts(lib, d, at);
    DeclaredFacts(lib, d, n);
    AddressOwner(lib, d, n);
  }

  /** In a converged network each node maps another node's address to the key of the next hop. */
  lemma RouteKey(f: Fabric, at: string, n: string)
    requires ValidFabric(f) && Converged(f)
    requires Declared(f.doc, at) && Declared(f.doc, n) && at != n
    ensures Declared(f.doc, NextHop(f.doc, at, n))
    ensures Net.Lookup(f.nodes[at].allowed, Address(f.lib, f.doc, n)) == Some(f.keys[NextHop(f.doc, at, n)])
  {
    ExpectedBetween(f.lib, f.doc, f.keys, at, n);
    assert RoutesAsExpected(f.lib, f.doc, at, f.keys, f.nodes[at].allowed);
  }

  /** So a packet from `a` to `b` takes the next hop, if from there `a` lies back where it came from. */
  lemma ConvergedHop(f: Fabric, a: string, b: string, at: string, to: string)
    requires ValidFabric(f) && Converged(f)
    requires Declared(f.doc, a) && Declared(f.doc, b) && Declared(f.doc, at) && Declared(f.doc, to)
    requires at != b && to == NextHop(f.doc, at, b)
    requires to != a && NextHop(f.doc, to, a) == at
    ensures TunnelHop(f, at, Packet(Address(f.lib, f.doc, a), Address(f.lib, f.doc, b))) == Some(to)
  {
    RouteKey(f, at, b);
    RouteKey(f, to, a);
    assert Holder(f, f.keys[to]) == Some(to);
  }

  lemma ConvergedHandle(f: Fabric, a: string, b: string, at: string, to: string, transit: bool)
    requires ValidFabric(f) && Converged(f)
    requires Declared(f.doc, a) && Declared(f.doc, b) && Declared(f.doc, at) && Declared(f.doc, to) && a != b
    requires at != b && to == NextHop(f.doc, at, b)
    requires to != a && NextHop(f.doc, to, a) == at
    requires transit ==> IsHub(f.doc, at)
    ensures Handle(f, at, Packet(Address(f.lib, f.doc, a), Address(f.lib, f.doc, b)), transit) ==
            if transit && !Permitted(f.doc, a, b) then Filtered else Next(to)
  {
    ConvergedHop(f, a, b, at, to);
    if transit {
      PolicyDecides(f.lib, f.doc, f.nodes[at].forwards, a, b);
    }
    AddressesDiffer(f.lib, f.doc, at, b);
    DeclaredFacts(f.lib, f.doc, b);
  }

  /** The path the topology gives from `a` to `b`. */
  function Route(d: Document, a: string, b: string): (r: seq<string>)
    requires Declared(d, a) && Declared(d, b)
    requires IsSpoke(d, a) ==> IsHub(d, HubOf(d, a))
    requires IsSpoke(d, b) ==> IsHub(d, HubOf(d, b))
  {
    var up := if IsSpoke(d, a) && HubOf(d, a) != b then [a, HubOf(d, a)] else [a];
    var down := if IsSpoke(d, b) && HubOf(d, b) != up[|up| - 1] then [HubOf(d, b), b] else [b];
    up + down
  }

  ghost predicate Reaches(f: Fabric, p: Packet, a: string, path: seq<string>, end: Outcome)
    requires ValidFabric(f)
  {
    Trace(f, p, path) && path[0] == a && Handle(f, path[|path| - 1], p, |path| > 1) == end
  }

  /** On a route, each next node is the next hop, and `a` lies back the way the packet came. */
  lemma RouteSteps(lib: Lib, d: Document, a: string, b: string, i: nat)
    requires WellFormed(lib, d) && Declared(d, a) && Declared(d, b) && a != b
    requires IsSpoke(d, a) ==> IsHub(d, HubOf(d, a))
    requires IsSpoke(d, b) ==> IsHub(d, HubOf(d, b))
    requires i < |Route(d, a, b)| - 1
    ensures var at, to := Route(d, a, b)[i], Route(d, a, b)[i + 1];
            && Declared(d, at) && Declared(d, to) && at != b && to != a
            && to == NextHop(d, at, b) && NextHop(d, to, a) == at
            && (i > 0 ==> IsHub(d, at))
  {
  }

  lemma RouteShape(d: Document, a: string, b: string)
    requires Declared(d, a) && Declared(d, b) && a != b
    requires IsSpoke(d, a) ==> IsHub(d, HubOf(d, a))
    requires IsSpoke(d, b) ==> IsHub(d, HubOf(d, b))
    ensures var path := Route(d, a, b);
            && 2 <= |path| <= 4 && path[0] == a && path[|path| - 1] == b
            && (forall i | 0 <= i < |path| :: Declared(d, path[i]))
            && (IsSpoke(d, a) && IsSpoke(d, b) ==> |path| > 2 && path[1] == HubOf(d, a))
  {
  }

  ghost function PacketBetween(f: Fabric, a: string, b: string): (p: Packet) {
    Packet(Address(f.lib, f.doc, a), Address(f.lib, f.doc, b))
  }

  lemma AtDestination(f: Fabric, a: string, b: string, transit: bool)
    requires ValidFabric(f) && Declared(f.doc, b)
    ensures Handle(f, b, PacketBetween(f, a, b), transit) == Delivered
  {
  }

  /** What happens at each node of a route before its end. */
  lemma RouteHandle(f: Fabric, a: string, b: string, i: nat)
    requires ValidFabric(f) && Converged(f)
    requires Declared(f.doc, a) && Declared(f.doc, b) && a != b
    requires IsSpoke(f.doc, a) ==> IsHub(f.doc, HubOf(f.doc, a))
    requires IsSpoke(f.doc, b) ==> IsHub(f.doc, HubOf(f.doc, b))
    requires i < |Route(f.doc, a, b)| - 1
    ensures Declared(f.doc, Route(f.doc, a, b)[i])
    ensures Handle(f, Route(f.doc, a, b)[i], PacketBetween(f, a, b), i > 0) ==
            if i > 0 && !Permitted(f.doc, a, b) then Filtered else Next(Route(f.doc, a, b)[i + 1])
  {
    RouteSteps(f.lib, f.doc, a, b, i);
    ConvergedHandle(f, a, b, Route(f.doc, a, b)[i], Route(f.doc, a, b)[i + 1], i > 0);
  }

  lemma IsTrace(f: Fabric, p: Packet, path: seq<string>, end: Outcome)
    requires ValidFabric(f) && path != []
    requires forall i | 0 <= i < |path| :: Declared(f.doc, path[i])
    requires forall i | 0 <= i < |path| - 1 :: Handle(f, path[i], p, i > 0) == Next(path[i + 1])
    requires Handle(f, path[|path| - 1], p, |path| > 1) == end
    ensures Reaches(f, p, path[0], path, end)
  {
  }

  lemma TwoNodeTrace(f: Fabric, p: Packet, a: string, h: string, end: Outcome)
    requires ValidFabric(f) && Declared(f.doc, a) && Declared(f.doc, h)
    requires Handle(f, a, p, false) == Next(h) && Handle(f, h, p, true) == end
    ensures Reaches(f, p, a, [a, h], end)
  {
  }

  /** Permitted traffic follows its route to the end. */
  lemma PermittedArrives(f: Fabric, a: string, b: string)
    requires ValidFabric(f) && Converged(f)
    requires Declared(f.doc, a) && Declared(f.doc, b) && a != b && Permitted(f.doc, a, b)
    requires IsSpoke(f.doc, a) ==> IsHub(f.doc, HubOf(f.doc, a))
    requires IsSpoke(f.doc, b) ==> IsHub(f.doc, HubOf(f.doc, b))
    ensures Reaches(f, PacketBetween(f, a, b), a, Route(f.doc, a, b), Delivered)
  {
    var path := Route(f.doc, a, b);
    RouteShape(f.doc, a, b);
    forall i | 0 <= i < |path| - 1
      ensures Handle(f, path[i], PacketBetween(f, a, b), i > 0) == Next(path[i + 1])
    {
      RouteHandle(f, a, b, i);
    }
    AtDestination(f, a, b, |path| > 1);
    IsTrace(f, PacketBetween(f, a, b), path, Delivered);
  }

  lemma FirstHub(f: Fabric, a: string, b: string)
    requires ValidFabric(f) && Converged(f)
    requires Declared(f.doc, a) && Declared(f.doc, b) && a != b && !Permitted(f.doc, a, b)
    requires IsHub(f.doc, HubOf(f.doc, a)) && IsHub(f.doc, HubOf(f.doc, b))
    ensures Handle(f, a, PacketBetween(f, a, b), false) == Next(HubOf(f.doc, a))
    ensures Handle(f, HubOf(f.doc, a), PacketBetween(f, a, b), true) == Filtered
  {
    RouteShape(f.doc, a, b);
    RouteHandle(f, a, b, 0);
    RouteHandle(f, a, b, 1);
  }

  /** Other traffic is between spokes, and the first hub filters it. */
  lemma ForbiddenIsFiltered(f: Fabric, a: string, b: string)
    requires ValidFabric(f) && Converged(f)
    requires Declared(f.doc, a) && Declared(f.doc, b) && a != b && !Permitted(f.doc, a, b)
    requires IsHub(f.doc, HubOf(f.doc, a)) && IsHub(f.doc, HubOf(f.doc, b))
    ensures Reaches(f, PacketBetween(f, a, b), a, [a, HubOf(f.doc, a)], Filtered)
  {
    FirstHub(f, a, b);
    TwoNodeTrace(f, PacketBetween(f, a, b), a, HubOf(f.doc, a), Filtered);
  }

  /** A packet has one fate: two traces from the same origin, both ended, are the same. */
  lemma {:induction false} FateUnique(f: Fabric, p: Packet, path: seq<string>, path': seq<string>, i: nat)
    requires ValidFabric(f) && Trace(f, p, path) && Trace(f, p, path') && path[0] == path'[0]
    requires !Handle(f, path[|path| - 1], p, |path| > 1).Next?
    requires i < |path'|
    ensures i < |path| && path'[i] == path[i]
  {
    if i > 0 {
      FateUnique(f, p, path, path', i - 1);
      assert Handle(f, path'[i - 1], p, i - 1 > 0) == Next(path'[i]);
      if i - 1 < |path| - 1 {
        assert Handle(f, path[i - 1], p, i - 1 > 0) == Next(path[i]);
      }
    }
  }

  lemma SameFate(f: Fabric, p: Packet, a: string, path: seq<string>, end: Outcome, path': seq<string>, end': Outcome)
    requires ValidFabric(f) && Reaches(f, p, a, path, end) && Reaches(f, p, a, path', end')
    requires !end.Next? && !end'.Next?
    ensures path == path' && end == end'
  {
    FateUnique(f, p, path, path', |path'| - 1);
    FateUnique(f, p, path', path, |path| - 1);
    forall i | 0 <= i < |path|
      ensures path[i] == path'[i]
    {
      FateUnique(f, p, path', path, i);
    }
  }

  lemma OnlyFate(f: Fabric, p: Packet, a: string, path: seq<string>, end: Outcome)
    requires ValidFabric(f) && Reaches(f, p, a, path, end) && !end.Next?
    ensures forall path', end' :: Reaches(f, p, a, path', end') && !end'.Next? ==> path' == path && end' == end
  {
    forall path', end' | Reaches(f, p, a, path', end') && !end'.Next?
      ensures path' == path && end' == end
    {
      SameFate(f, p, a, path, end, path', end');
    }
  }

  /**
   End to end: in a converged network a packet between two different declared nodes has exactly one
   fate.  It is delivered, in at most three tunnel hops, exactly when the declared policy permits it;
   if not, the first hub drops it.
   */
  lemma EndToEnd(f: Fabric, a: string, b: string) returns (path: seq<string>, end: Outcome)
    requires ValidFabric(f) && Converged(f)
    requires Declared(f.doc, a) && Declared(f.doc, b) && a != b
    ensures Reaches(f, PacketBetween(f, a, b), a, path, end) && !end.Next?
    ensures forall path', end' :: Reaches(f, PacketBetween(f, a, b), a, path', end') && !end'.Next? ==>
              path' == path && end' == end
    ensures |path| - 1 <= 3
    ensures if Permitted(f.doc, a, b) then end.Delivered? && path[|path| - 1] == b
            else IsSpoke(f.doc, a) && end.Filtered? && path == [a, HubOf(f.doc, a)]
  {
    DeclaredFacts(f.lib, f.doc, a);
    DeclaredFacts(f.lib, f.doc, b);
    if Permitted(f.doc, a, b) {
      PermittedArrives(f, a, b);
      RouteShape(f.doc, a, b);
      path, end := Route(f.doc, a, b), Delivered;
    } else {
      ForbiddenIsFiltered(f, a, b);
      path, end := [a, HubOf(f.doc, a)], Filtered;
    }
    OnlyFate(f, PacketBetween(f, a, b), a, path, end);
  }
}
