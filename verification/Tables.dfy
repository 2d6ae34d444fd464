/**
 A node's table between passes: every entry leads to the next hop however far the
 calls that filled it got, and the kernel can hold what the topology wants, except
 where it says.
 */
module Tables {
  import opened Net
  import opened Sequences
  import opened Spec
  import opened Wg
  import opened Topology
  import opened Routing

  // ---------- tables on the way ----------

  /** Whatever the table routes, it routes to the next hop; it may miss routes. */
  ghost predicate RoutesSafely(lib: Lib, d: Document, self: string, keys: map<string, Key>, table: map<Prefix, Key>)
    requires WellFormed(lib, d) && Declared(d, self)
  {
    forall a :: Lookup(table, a).Some? ==> Lookup(table, a) == ExpectedRoute(lib, d, self, keys, a)
  }

  /** `k` is the key of the node through which `self` reaches `n`. */
  ghost predicate RightKey(d: Document, self: string, keys: map<string, Key>, n: string, k: Key)
    requires Declared(d, self) && Declared(d, n)
  {
    NextHop(d, self, n) in keys && keys[NextHop(d, self, n)] == k
  }

  /** An entry a node may have under this document: its hub for the overlay, or the next hop of one node. */
  ghost predicate RightEntry(lib: Lib, d: Document, self: string, keys: map<string, Key>, q: Prefix, k: Key)
    requires WellFormed(lib, d) && Declared(d, self)
  {
    if IsSpoke(d, self) then
      q == Masked(Overlay(lib, d)) && HubOf(d, self) in keys && keys[HubOf(d, self)] == k
    else
      exists n | Declared(d, n) && n != self :: q == Host(Address(lib, d, n)) && RightKey(d, self, keys, n, k)
  }

  ghost predicate RightTable(lib: Lib, d: Document, self: string, keys: map<string, Key>, table: map<Prefix, Key>)
    requires WellFormed(lib, d) && Declared(d, self)
  {
    forall q <- table :: RightEntry(lib, d, self, keys, q, table[q])
  }

  /** Right entries route safely, whichever of them there are. */
  lemma RightTableIsSafe(lib: Lib, d: Document, self: string, keys: map<string, Key>, table: map<Prefix, Key>)
    requires WellFormed(lib, d) && Declared(d, self) && RightTable(lib, d, self, keys, table)
    ensures RoutesSafely(lib, d, self, keys, table)
  {
    forall a | Lookup(table, a).Some?
      ensures Lookup(table, a) == ExpectedRoute(lib, d, self, keys, a)
    {
      if IsSpoke(d, self) {
        RightSpokeLookup(lib, d, self, keys, table, a);
      } else {
        RightHubLookup(lib, d, self, keys, table, a);
      }
    }
  }

  lemma RightSpokeLookup(lib: Lib, d: Document, self: string, keys: map<string, Key>, table: map<Prefix, Key>, a: Addr)
    requires WellFormed(lib, d) && IsSpoke(d, self) && RightTable(lib, d, self, keys, table)
    requires Lookup(table, a).Some?
    ensures Lookup(table, a) == ExpectedRoute(lib, d, self, keys, a)
  {
    var overlay := Overlay(lib, d);
    forall q | q in table
      ensures Masked(q) == q == Masked(overlay) && table[q] == keys[HubOf(d, self)]
    {
      MaskedFacts(overlay, a);
    }
    LookupFindsBestMatch(table, a);
    var q :| BestMatch(table, a, q);
    MaskedFacts(overlay, a);
  }

  lemma RightHubLookup(lib: Lib, d: Document, self: string, keys: map<string, Key>, table: map<Prefix, Key>, a: Addr)
    requires WellFormed(lib, d) && IsHub(d, self) && RightTable(lib, d, self, keys, table)
    requires Lookup(table, a).Some?
    ensures Lookup(table, a) == ExpectedRoute(lib, d, self, keys, a)
  {
    forall q | q in table
      ensures q.bits == 32
    {
      assert RightEntry(lib, d, self, keys, q, table[q]);
    }
    HostTableLookup(table, a);
    assert RightEntry(lib, d, self, keys, Host(a), table[Host(a)]);
    var n :| Declared(d, n) && n != self && Host(a) == Host(Address(lib, d, n)) &&
             RightKey(d, self, keys, n, table[Host(a)]);
    var m := Owner(lib, d, a).value;
    if m != n {
      AddressesDiffer(lib, d, m, n);
    }
  }

  lemma HubPeerRight(lib: Lib, d: Document, self: string, byName: map<string, PeerInfo>, keys: map<string, Key>,
                     p: Peer, q: Prefix)
    requires WellFormed(lib, d) && IsHub(d, self) && GoodHubPeer(lib, d, self, byName, p)
    requires p.name in keys && keys[p.name] == p.publicKey && q in MaskedSet(p.allowedIPs)
    ensures RightEntry(lib, d, self, keys, q, p.publicKey)
  {
    var n :| RoutedVia(d, self, p.name, n) && q == Host(Address(lib, d, n));
    assert RightKey(d, self, keys, n, p.publicKey);
  }

  /** Everything a node wants from genuine registrations is right. */
  lemma PeersForRight(lib: Lib, d: Document, name: string, registry: seq<PeerInfo>, keepalive: int,
                      keys: map<string, Key>)
    requires WellFormed(lib, d) && Declared(d, name)
    requires PeersFor(lib, d, FindSelf(lib, d, name).value, registry, keepalive).Ok?
    requires forall m <- KeyView(lib, ByName(registry)) :: m in keys && keys[m] == KeyView(lib, ByName(registry))[m]
    ensures forall p <- PeersFor(lib, d, FindSelf(lib, d, name).value, registry, keepalive).value,
                   q <- MaskedSet(p.allowedIPs) :: RightEntry(lib, d, name, keys, q, p.publicKey)
  {
    var self, byName := FindSelf(lib, d, name).value, ByName(registry);
    var peers := PeersFor(lib, d, self, registry, keepalive).value;
    if IsHub(d, name) {
      HubPeersMeaning(lib, d, self, byName, keepalive);
      forall p, q | p in peers && q in MaskedSet(p.allowedIPs)
        ensures RightEntry(lib, d, name, keys, q, p.publicKey)
      {
        assert GoodHubPeer(lib, d, name, byName, p);
        assert p.name in KeyView(lib, byName);
        HubPeerRight(lib, d, name, byName, keys, p, q);
      }
    } else {
      DeclaredFacts(lib, d, name);
      SpokePeersMeaning(lib, d, self, byName, Overlay(lib, d), keepalive);
      assert HubOf(d, name) in KeyView(lib, byName);
      forall p, q | p in peers && q in MaskedSet(p.allowedIPs)
        ensures RightEntry(lib, d, name, keys, q, p.publicKey)
      {
        assert p == peers[0];
      }
    }
  }

  /** A configuration entry that removes a peer, or gives it right entries only. */
  ghost predicate RightConfig(lib: Lib, d: Document, self: string, keys: map<string, Key>, c: PeerConfig)
    requires WellFormed(lib, d) && Declared(d, self)
  {
    c.remove || forall q <- MaskedSet(c.allowedIPs) :: RightEntry(lib, d, self, keys, q, c.publicKey)
  }

  lemma ConfigureOneKeepsRight(lib: Lib, d: Document, self: string, keys: map<string, Key>, dev: Device, c: PeerConfig)
    requires WellFormed(lib, d) && Declared(d, self)
    requires RightTable(lib, d, self, keys, dev.allowed) && RightConfig(lib, d, self, keys, c)
    ensures RightTable(lib, d, self, keys, ConfigureOne(dev, c).allowed)
  {
    if !c.remove {
      var base := if c.replaceAllowedIPs then DropOwned(dev.allowed, c.publicKey) else dev.allowed;
      AssignFacts(base, c.allowedIPs, c.publicKey);
      forall q | q in ConfigureOne(dev, c).allowed
        ensures RightEntry(lib, d, self, keys, q, ConfigureOne(dev, c).allowed[q])
      {
        if q !in MaskedSet(c.allowedIPs) {
          assert q in base && base[q] == dev.allowed[q];
        }
      }
    }
  }

  lemma {:induction false} ConfigureKeepsRight(lib: Lib, d: Document, self: string, keys: map<string, Key>, dev: Device,
                                               cs: seq<PeerConfig>)
    requires WellFormed(lib, d) && Declared(d, self)
    requires RightTable(lib, d, self, keys, dev.allowed) && forall c <- cs :: RightConfig(lib, d, self, keys, c)
    ensures RightTable(lib, d, self, keys, Configure(dev, cs).allowed)
  {
    if cs != [] {
      var n := |cs| - 1;
      ConfigureKeepsRight(lib, d, self, keys, dev, cs[..n]);
      ConfigureOneKeepsRight(lib, d, self, keys, Configure(dev, cs[..n]), cs[n]);
    }
  }

  /** The entries of a diff are removals and desired peers. */
  lemma DiffIsRight(lib: Lib, d: Document, self: string, keys: map<string, Key>, current: map<Key, Peer>,
                    desired: seq<Peer>, diff: Diff, i: nat)
    requires WellFormed(lib, d) && Declared(d, self) && IsDiff(diff, current, desired) && i < |DiffConfigs(diff)|
    requires forall p <- desired, q <- MaskedSet(p.allowedIPs) :: RightEntry(lib, d, self, keys, q, p.publicKey)
    ensures RightConfig(lib, d, self, keys, DiffConfigs(diff)[i])
  {
    var adds, upds := |diff.added|, |diff.updated|;
    if i < adds + upds {
      var p := if i < adds then diff.added[i] else diff.updated[i - adds];
      assert DiffConfigs(diff)[i] == PeerToConfig(p, i >= adds);
      assert if i < adds then p in diff.added else p in diff.updated;
      DiffMembers(current, desired, p);
    } else {
      assert DiffConfigs(diff)[i] == RemoveConfig(diff.removed[i - adds - upds]);
    }
  }

  lemma CutIsRight(lib: Lib, d: Document, self: string, keys: map<string, Key>, c: PeerConfig, whole: PeerConfig)
    requires WellFormed(lib, d) && Declared(d, self) && RightConfig(lib, d, self, keys, whole) && CutShort(c, whole)
    ensures RightConfig(lib, d, self, keys, c)
  {
    assert forall q <- c.allowedIPs :: q in whole.allowedIPs;
    assert MaskedSet(c.allowedIPs) <= MaskedSet(whole.allowedIPs);
  }

  lemma PartIsRight(lib: Lib, d: Document, self: string, keys: map<string, Key>, part: seq<PeerConfig>,
                    cfg: seq<PeerConfig>, i: nat)
    requires WellFormed(lib, d) && Declared(d, self) && LeadingPart(part, cfg) && i < |part|
    requires RightConfig(lib, d, self, keys, cfg[i])
    ensures RightConfig(lib, d, self, keys, part[i])
  {
    if i == |part| - 1 {
      CutIsRight(lib, d, self, keys, part[i], cfg[i]);
    }
  }

  lemma PartKeepsRight(lib: Lib, d: Document, self: string, keys: map<string, Key>, s: Device, desired: seq<Peer>,
                       t: Device, current: map<Key, Peer>, diff: Diff, part: seq<PeerConfig>)
    requires WellFormed(lib, d) && Declared(d, self) && RightTable(lib, d, self, keys, s.allowed)
    requires AppliesPart(s, desired, t, current, diff, part)
    requires forall p <- desired, q <- MaskedSet(p.allowedIPs) :: RightEntry(lib, d, self, keys, q, p.publicKey)
    ensures RightTable(lib, d, self, keys, t.allowed)
  {
    var cfg := DiffConfigs(diff);
    forall c | c in part
      ensures RightConfig(lib, d, self, keys, c)
    {
      var i :| 0 <= i < |part| && part[i] == c;
      DiffIsRight(lib, d, self, keys, current, desired, diff, i);
      PartIsRight(lib, d, self, keys, part, cfg, i);
    }
    ConfigureKeepsRight(lib, d, self, keys, s, part);
  }

  /** An ApplyPeers call for right peers, cut short anywhere, leaves only right entries. */
  lemma AppliesKeepsRight(lib: Lib, d: Document, self: string, keys: map<string, Key>, s: Device, desired: seq<Peer>,
                          t: Device, ok: bool)
    requires WellFormed(lib, d) && Declared(d, self) && RightTable(lib, d, self, keys, s.allowed)
    requires Applies(s, desired, t, ok)
    requires forall p <- desired, q <- MaskedSet(p.allowedIPs) :: RightEntry(lib, d, self, keys, q, p.publicKey)
    ensures RightTable(lib, d, self, keys, t.allowed)
  {
    if ok || t != s {
      var current, diff, part :|
        AppliesPart(s, desired, t, current, diff, part) && (ok ==> part == DiffConfigs(diff));
      PartKeepsRight(lib, d, self, keys, s, desired, t, current, diff, part);
    }
  }

  // ---------- what the kernel can hold ----------

  /** The mesh list of a hub names each address once. */
  lemma MeshDistinct(lib: Lib, d: Document, h: Hub, i: nat, j: nat)
    requires WellFormed(lib, d) && h in d.spec.hubs && i < j < |MeshIPs(d, h)|
    ensures lib.parseAddr(MeshIPs(d, h)[i]) != lib.parseAddr(MeshIPs(d, h)[j])
  {
    var spokes := AgentsOf(d.spec.agents, h.name);
    var a := MeshSpoke(lib, d, h, j);
    if i == 0 {
      var k :| 0 <= k < |d.spec.hubs| && d.spec.hubs[k] == h;
      HubEntry(lib, d, k);
      ParsedDiffer(lib, d, h.name, a.name);
    } else {
      var b := MeshSpoke(lib, d, h, i);
      AgentNamesDistinct(lib, d);
      AgentsOfDistinct(d.spec.agents, h.name);
      ParsedDiffer(lib, d, b.name, a.name);
    }
  }

  lemma MeshSpoke(lib: Lib, d: Document, h: Hub, j: nat) returns (a: Agent)
    requires WellFormed(lib, d) && 0 < j < |MeshIPs(d, h)|
    ensures a == AgentsOf(d.spec.agents, h.name)[j - 1] && IsSpoke(d, a.name)
    ensures MeshIPs(d, h)[j] == TunnelIPOf(d, a.name)
  {
    a := AgentsOf(d.spec.agents, h.name)[j - 1];
    assert a in AgentsOf(d.spec.agents, h.name);
    var k := AgentIndex(d, a);
    AgentEntry(lib, d, k);
  }

  lemma ParsedDiffer(lib: Lib, d: Document, m: string, n: string)
    requires WellFormed(lib, d) && Declared(d, m) && Declared(d, n) && m != n
    ensures lib.parseAddr(TunnelIPOf(d, m)) != lib.parseAddr(TunnelIPOf(d, n))
  {
    DeclaredFacts(lib, d, m);
    DeclaredFacts(lib, d, n);
    AddressesDiffer(lib, d, m, n);
  }

  /** Single addresses, each listed once. */
  ghost predicate ListsHostsOnce(p: Peer) {
    NoDuplicates(p.allowedIPs) && forall q <- p.allowedIPs :: q.bits == 32
  }

  lemma HubStepListsOnce(lib: Lib, d: Document, self: Self, h: Hub, byName: map<string, PeerInfo>, keepalive: int,
                         p: Peer)
    requires WellFormed(lib, d) && h in d.spec.hubs && HubStep(lib, d, self, h, byName, keepalive) == Ok(Some(p))
    ensures ListsHostsOnce(p)
  {
    var raws := MeshIPs(d, h);
    forall i, j | 0 <= i < j < |raws|
      ensures p.allowedIPs[i] != p.allowedIPs[j]
    {
      MeshDistinct(lib, d, h, i, j);
    }
  }

  /** A hub's list gives every peer single addresses, each once. */
  lemma HubPeersListOnce(lib: Lib, d: Document, self: Self, byName: map<string, PeerInfo>, keepalive: int)
    requires WellFormed(lib, d) && IsHub(d, self.name) && HubPeers(lib, d, self, byName, keepalive).Ok?
    ensures forall p <- HubPeers(lib, d, self, byName, keepalive).value :: ListsHostsOnce(p)
  {
    var steps := AllSteps(lib, d, self, byName, keepalive);
    CollectFacts(steps, []);
    forall p | p in Collect(steps, []).value
      ensures ListsHostsOnce(p)
    {
      var i :| 0 <= i < |steps| && steps[i] == Ok(Some(p));
      if i < |d.spec.hubs| {
        HubStepListsOnce(lib, d, self, d.spec.hubs[i], byName, keepalive, p);
      }
    }
  }

  /** The kernel keeps this keepalive interval as it is written. */
  ghost predicate KeepaliveFits(dev: Device, k: Key, keepalive: int) {
    if keepalive > 0 then keepalive % SECOND == 0 && keepalive / SECOND < 65536 else StateOf(dev, k).keepalive == 0
  }

  /**
   Whether the kernel can hold peer `p` of node `name` as written.  A dialled hub: if the keepalive fits
   and, at a spoke, the overlay is written masked.  A hub's spoke: if the kernel has neither an
   endpoint nor a keepalive for it.
   */
  ghost predicate Settles(lib: Lib, d: Document, name: string, keepalive: int, dev: Device, p: Peer)
    requires WellFormed(lib, d)
  {
    if IsHub(d, p.name) then
      KeepaliveFits(dev, p.publicKey, keepalive) && (IsSpoke(d, name) ==> Masked(Overlay(lib, d)) == Overlay(lib, d))
    else
      StateOf(dev, p.publicKey) == PeerState(None, 0)
  }

  lemma HostsAreMasked(p: Peer)
    requires ListsHostsOnce(p)
    ensures forall q <- p.allowedIPs :: Masked(q) == q
  {
    forall q | q in p.allowedIPs
      ensures Masked(q) == q
    {
      HostFacts(q.addr, 0);
    }
  }

  /** What node `name` wants settles exactly when the kernel can hold it as written. */
  lemma SettlesExactly(lib: Lib, d: Document, name: string, registry: seq<PeerInfo>, keepalive: int, dev: Device,
                       p: Peer)
    requires WellFormed(lib, d) && Declared(d, name)
    requires PeersFor(lib, d, FindSelf(lib, d, name).value, registry, keepalive).Ok?
    requires p in PeersFor(lib, d, FindSelf(lib, d, name).value, registry, keepalive).value
    ensures Representable(dev, p) <==> Settles(lib, d, name, keepalive, dev, p)
  {
    var self, byName := FindSelf(lib, d, name).value, ByName(registry);
    PeerSettings(lib, d, name, registry, keepalive);
    assert HasSettings(lib, d, byName, keepalive, p);
    if IsHub(d, name) {
      HubPeersListOnce(lib, d, self, byName, keepalive);
      HostsAreMasked(p);
    } else {
      DeclaredFacts(lib, d, name);
      SpokePeersMeaning(lib, d, self, byName, Overlay(lib, d), keepalive);
      assert p.allowedIPs == [Overlay(lib, d)];
    }
  }

  /**
   The fixpoint for what the topology computes: a second pass adds, removes and changes nothing, and
   lists as updated exactly the peers that do not settle.
   */
  lemma SecondPass(lib: Lib, d: Document, name: string, registry: seq<PeerInfo>, keepalive: int, dev: Device,
                   current: map<Key, Peer>, diff: Diff)
    requires WellFormed(lib, d) && Declared(d, name) && DistinctNeighbours(lib, d, name, ByName(registry))
    requires PeersFor(lib, d, FindSelf(lib, d, name).value, registry, keepalive).Ok?
    requires ValidDevice(dev)
    requires var peers := PeersFor(lib, d, FindSelf(lib, d, name).value, registry, keepalive).value;
             Reads(Target(dev, peers), current) && IsDiff(diff, current, peers)
    ensures var peers := PeersFor(lib, d, FindSelf(lib, d, name).value, registry, keepalive).value;
            && diff.added == [] && diff.removed == []
            && Configure(Target(dev, peers), DiffConfigs(diff)) == Target(dev, peers)
            && forall p :: p in diff.updated <==> p in peers && !Settles(lib, d, name, keepalive, dev, p)
  {
    var peers := PeersFor(lib, d, FindSelf(lib, d, name).value, registry, keepalive).value;
    PeersForInstallable(lib, d, name, registry, keepalive);
    SecondDiff(dev, peers, current, diff);
    forall p | p in peers
      ensures Representable(dev, p) <==> Settles(lib, d, name, keepalive, dev, p)
    {
      SettlesExactly(lib, d, name, registry, keepalive, dev, p);
    }
  }
}
