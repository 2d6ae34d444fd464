/**
 The pieces together: a registry, the machines of the nodes that reconcile against it
 at moments of their own, and the network those machines make.
 */
module Deployment {
  import opened Net
  import opened Spec
  import opened Wg
  import opened Topology
  import opened Routing
  import opened Tables
  import opened Netpolicy
  import opened Store
  import opened Forwarding
  import A = Agent
  import F = Firewall
  import P = Protocol

  // ---------- the life of one node ----------

  /** What can happen to a node's machine. */
  datatype Event =
    | PassEvent(q: A.Question, now: int, after: A.Question, local: A.Local, r: A.Pass) // a pass that was answered
    | RoamEvent                                                                        // endpoints are learned
    | EditEvent                                                                        // others edit FORWARD
    | RestartEvent(clean: bool)                                                        // the agent stops and starts

  /** The machine through its events, and what the rest of its FORWARD list decides. */
  datatype Site = Site(machines: seq<A.Machine>, events: seq<Event>, rest: F.Rest)

  /** One shared document, the key of each declared node, and its life so far. */
  datatype World = World(lib: Lib, doc: Document, keys: map<string, Key>, sites: map<string, Site>)

  ghost predicate ValidWorld(w: World) {
    && WellFormed(w.lib, w.doc)
    && Injective(w.keys)
    && (forall n :: n in w.keys <==> Declared(w.doc, n))
    && (forall n | Declared(w.doc, n) :: n in w.sites && |w.sites[n].machines| == |w.sites[n].events| + 1)
  }

  /** What node `name` goes by; a name that is not declared has no role. */
  function PlanOf(w: World, name: string): (p: A.Plan) {
    var self := FindSelf(w.lib, w.doc, name);
    A.Plan(w.lib, w.doc, if self.Ok? then self.value else Self(name, UnspecifiedRole, 0, ""))
  }

  /** The kernel learns endpoints from handshakes; nothing else changes. */
  ghost predicate Roams(s: Device, t: Device) {
    && t.allowed == s.allowed && t.peers.Keys == s.peers.Keys
    && forall k <- t.peers :: t.peers[k].keepalive == s.peers[k].keepalive
  }

  /** The interface is deleted and created again, and the firewall torn down as far as iptables lets it. */
  ghost predicate Restarts(s: A.Machine, t: A.Machine, clean: bool) {
    && t.dev == Device(map[], map[]) && t.filter.Some? == s.filter.Some?
    && (s.filter.Some? ==>
          && t.filter.value.iface == s.filter.value.iface
          && F.TearsDown(s.filter.value.Jump(), s.filter.value.table, t.filter.value.table, clean))
  }

  ghost predicate Edits(s: A.Machine, t: A.Machine) {
    && t.dev == s.dev && t.filter.Some? == s.filter.Some?
    && (s.filter.Some? ==>
          && t.filter.value.iface == s.filter.value.iface
          && F.Foreign(s.filter.value.Jump(), s.filter.value.table, t.filter.value.table))
  }

  ghost predicate Happens(w: World, name: string, s: A.Machine, e: Event, t: A.Machine) {
    match e
    case PassEvent(q, now, after, local, r) => A.Completed(PlanOf(w, name), q, now, after, local, s, r, t)
    case RoamEvent => Roams(s.dev, t.dev) && t.filter == s.filter
    case EditEvent => Edits(s, t)
    case RestartEvent(clean) => Restarts(s, t, clean)
  }

  /** The machine as the agent finds it first: no peers, and on a hub FORWARD with no jump, or one in front. */
  ghost predicate Fresh(w: World, name: string, m: A.Machine) {
    && ValidDevice(m.dev) && m.dev.allowed == map[] && (m.filter.Some? <==> IsHub(w.doc, name))
    && Orderly(m)
  }

  /** The firewall is sound and nothing comes before the jump. */
  ghost predicate Orderly(m: A.Machine) {
    m.filter.Some? ==>
      var f := m.filter.value;
      F.Sound(f.Jump(), f.table) && F.JumpLeads(f.Jump(), f.table.forward)
  }

  /** Event `i` of the site is a possible one. */
  ghost predicate HappensAt(w: World, name: string, s: Site, i: nat)
    requires i < |s.events| < |s.machines|
  {
    Happens(w, name, s.machines[i], s.events[i], s.machines[i + 1])
  }

  /** A life of node `name` on its machine. */
  ghost predicate Lives(w: World, name: string, s: Site) {
    && |s.machines| == |s.events| + 1 && Fresh(w, name, s.machines[0])
    && forall i | 0 <= i < |s.events| :: HappensAt(w, name, s, i)
  }

  // ---------- genuine answers ----------

  /** Declared names, if present, hold their node's key. */
  ghost predicate GenuineRows(w: World, rows: map<string, Row>) {
    forall n <- rows :: n in w.keys ==> w.lib.parseKey(rows[n].publicKey) == Some(w.keys[n])
  }

  /** The server answered by the shared document, from a table of genuine registrations. */
  ghost predicate Genuine(w: World, q: A.Question) {
    && q.known.Some? && q.known.value.doc == w.doc
    && A.ProperTable(q.rows) && GenuineRows(w, q.rows)
  }

  ghost predicate GenuineLife(w: World, s: Site) {
    forall i | 0 <= i < |s.events| && s.events[i].PassEvent? :: Genuine(w, s.events[i].after)
  }

  /** The keys seen through a genuine answer are those of the nodes it lists. */
  lemma ViewOfAnswer(w: World, q: A.Question, registry: seq<PeerInfo>)
    requires ValidWorld(w) && Genuine(w, q) && A.Hears(q, registry)
    ensures var view := KeyView(w.lib, ByName(registry));
            && (forall n :: n in view <==> n in q.rows && Declared(w.doc, n))
            && (forall n <- view :: n in w.keys && view[n] == w.keys[n])
    ensures forall n <- ByName(registry) ::
              n in w.keys && w.lib.parseKey(ByName(registry)[n].publicKey) == Some(w.keys[n])
  {
    A.HeardMeaning(q, registry);
  }

  /** What a node computes from a genuine answer can always be installed. */
  lemma AnswerInstallable(w: World, name: string, q: A.Question, registry: seq<PeerInfo>)
    requires ValidWorld(w) && Declared(w.doc, name) && Genuine(w, q) && A.Hears(q, registry)
    requires A.Desired(PlanOf(w, name), registry).Ok?
    ensures Installable(A.Desired(PlanOf(w, name), registry).value)
  {
    ViewOfAnswer(w, q, registry);
    assert DistinctNeighbours(w.lib, w.doc, name, ByName(registry));
    PeersForInstallable(w.lib, w.doc, name, registry, w.doc.spec.wireguard.persistentKeepalive);
  }

  // ---------- tables stay right ----------

  /** Every entry of the device leads to the next hop, under the shared document. */
  ghost predicate RightMachine(w: World, name: string, m: A.Machine)
    requires WellFormed(w.lib, w.doc) && Declared(w.doc, name)
  {
    RightTable(w.lib, w.doc, name, w.keys, m.dev.allowed)
  }

  lemma FollowKeepsRight(w: World, name: string, s: Device, q: A.Question, registry: seq<PeerInfo>, t: Device, ok: bool)
    requires ValidWorld(w) && Declared(w.doc, name) && Genuine(w, q) && A.Hears(q, registry)
    requires RightTable(w.lib, w.doc, name, w.keys, s.allowed)
    requires A.Desired(PlanOf(w, name), registry).Ok?
    requires Applies(s, A.Desired(PlanOf(w, name), registry).value, t, ok)
    ensures RightTable(w.lib, w.doc, name, w.keys, t.allowed)
  {
    ViewOfAnswer(w, q, registry);
    PeersForRight(w.lib, w.doc, name, registry, w.doc.spec.wireguard.persistentKeepalive, w.keys);
    AppliesKeepsRight(w.lib, w.doc, name, w.keys, s, A.Desired(PlanOf(w, name), registry).value, t, ok);
  }

  /** An answered pass, whatever its outcome, keeps the table right. */
  lemma PassKeepsRight(w: World, name: string, s: A.Machine, e: Event, t: A.Machine)
    requires ValidWorld(w) && Declared(w.doc, name) && e.PassEvent? && Genuine(w, e.after)
    requires Happens(w, name, s, e, t) && RightMachine(w, name, s)
    ensures RightMachine(w, name, t)
  {
    var plan := PlanOf(w, name);
    var registry :| A.Hears(e.after, registry) && A.Locally(plan, registry, e.local, s, e.r, t);
    A.LocalDevice(plan, registry, e.local, s, e.r, t);
    if A.Desired(plan, registry).Ok? {
      FollowKeepsRight(w, name, s.dev, e.after, registry, t.dev, !e.r.ApplyFailed?);
    }
  }

  lemma EventKeepsRight(w: World, name: string, s: Site, i: nat)
    requires ValidWorld(w) && Declared(w.doc, name) && i < |s.events| < |s.machines|
    requires HappensAt(w, name, s, i) && (s.events[i].PassEvent? ==> Genuine(w, s.events[i].after))
    requires RightMachine(w, name, s.machines[i])
    ensures RightMachine(w, name, s.machines[i + 1])
  {
    if s.events[i].PassEvent? {
      PassKeepsRight(w, name, s.machines[i], s.events[i], s.machines[i + 1]);
    }
  }

  lemma {:induction false} LifeStaysRight(w: World, name: string, s: Site, i: nat)
    requires ValidWorld(w) && Declared(w.doc, name) && Lives(w, name, s) && GenuineLife(w, s) && i <= |s.events|
    ensures RightMachine(w, name, s.machines[i])
  {
    if i > 0 {
      LifeStaysRight(w, name, s, i - 1);
      EventKeepsRight(w, name, s, i - 1);
    }
  }

  // ---------- loop freedom ----------

  /** The machine a site has come to. */
  function Last(s: Site): (m: A.Machine)
    requires |s.machines| == |s.events| + 1
  {
    s.machines[|s.events|]
  }

  /** Tunnel traffic in transit comes in and goes out by the agent's interface. */
  function OverlayTransit(m: A.Machine, p: Packet): (x: F.Transit)
    requires m.filter.Some?
  {
    F.Transit(p, m.filter.value.iface, m.filter.value.iface)
  }

  function NodeOf(m: A.Machine, rest: F.Rest): (r: Node) {
    Node(m.dev.allowed,
         p => m.filter.None? ||
              F.LetsThrough(m.filter.value.table.forward, m.filter.value.table.chain, rest, OverlayTransit(m, p)))
  }

  /** The network the sites make. */
  ghost function FabricOf(w: World): (f: Fabric)
    requires ValidWorld(w)
    ensures ValidFabric(f)
  {
    Fabric(w.lib, w.doc, w.keys,
           map n | Declared(w.doc, n) && n in w.sites :: NodeOf(Last(w.sites[n]), w.sites[n].rest))
  }

  /**
   Loop freedom of a deployment: let every node live any life, with passes that succeed, fail or stop
   half-way through configuring the device, against any genuine tables; the tables they have come to
   let every packet stop within three tunnel hops, handed over only at the owner of its destination.
   */
  lemma DeploymentLoopFree(w: World, p: Packet, path: seq<string>)
    requires ValidWorld(w)
    requires forall n | Declared(w.doc, n) :: Lives(w, n, w.sites[n]) && GenuineLife(w, w.sites[n])
    requires Trace(FabricOf(w), p, path)
    ensures |path| - 1 <= 3
    ensures var last := Handle(FabricOf(w), path[|path| - 1], p, |path| > 1);
            !last.Stray? && (last.Delivered? ==> Owner(w.lib, w.doc, p.dst) == Some(path[|path| - 1]))
  {
    var f := FabricOf(w);
    forall n | Declared(w.doc, n)
      ensures RoutesSafely(f.lib, f.doc, n, f.keys, f.nodes[n].allowed)
    {
      LifeStaysRight(w, n, w.sites[n], |w.sites[n].events|);
      RightTableIsSafe(w.lib, w.doc, n, w.keys, Last(w.sites[n]).dev.allowed);
    }
    LoopFreedom(f, p, path);
  }

  // ---------- tables drawn from a run of the protocol ----------

  /** Every node registers with its own key. */
  ghost predicate HonestKeys(cfg: P.Config, w: World, actions: seq<P.Action>) {
    forall a <- actions ::
      a.Register? && P.AdmitAction(cfg, a).Ok? && a.req.name in w.keys ==>
        w.lib.parseKey(a.req.publicKey) == Some(w.keys[a.req.name])
  }

  lemma {:induction false} ReachableRowsAreGenuine(cfg: P.Config, w: World, states: seq<P.Sys>, actions: seq<P.Action>,
                                                   i: nat)
    requires P.Run(cfg, states, actions) && HonestKeys(cfg, w, actions) && i < |states|
    ensures GenuineRows(w, states[i].rows)
  {
    if i > 0 {
      ReachableRowsAreGenuine(cfg, w, states, actions, i - 1);
      assert P.Step(cfg, states[i - 1], actions[i - 1], states[i]);
      assert actions[i - 1] in actions;
    }
  }

  /** The server answered by the shared document from the table of some moment of the run. */
  ghost predicate DrawnFrom(w: World, q: A.Question, states: seq<P.Sys>) {
    && q.known.Some? && q.known.value.doc == w.doc
    && exists i | 0 <= i < |states| :: q.rows == states[i].rows
  }

  lemma DrawnIsGenuine(cfg: P.Config, w: World, states: seq<P.Sys>, actions: seq<P.Action>, q: A.Question)
    requires P.Run(cfg, states, actions) && HonestKeys(cfg, w, actions) && DrawnFrom(w, q, states)
    ensures Genuine(w, q)
  {
    var i :| 0 <= i < |states| && q.rows == states[i].rows;
    P.RunKeepsInv(cfg, states, actions, i);
    ReachableRowsAreGenuine(cfg, w, states, actions, i);
  }

  /** The site lives, and all its passes were answered during the run. */
  ghost predicate LivesDuring(w: World, name: string, s: Site, states: seq<P.Sys>) {
    && Lives(w, name, s)
    && forall i | 0 <= i < |s.events| && s.events[i].PassEvent? :: DrawnFrom(w, s.events[i].after, states)
  }

  lemma LifeIsGenuine(cfg: P.Config, w: World, states: seq<P.Sys>, actions: seq<P.Action>, name: string, s: Site)
    requires P.Run(cfg, states, actions) && HonestKeys(cfg, w, actions) && LivesDuring(w, name, s, states)
    ensures GenuineLife(w, s)
  {
    forall i | 0 <= i < |s.events| && s.events[i].PassEvent?
      ensures Genuine(w, s.events[i].after)
    {
      DrawnIsGenuine(cfg, w, states, actions, s.events[i].after);
    }
  }

  /**
   Loop freedom over runs: let registrations and heartbeats interleave in any way while nodes reconcile,
   successfully or not, at moments of their own; packets never loop, stray or get misdelivered.
   */
  lemma RunIsLoopFree(cfg: P.Config, w: World, states: seq<P.Sys>, actions: seq<P.Action>, p: Packet, path: seq<string>)
    requires ValidWorld(w) && P.Run(cfg, states, actions) && HonestKeys(cfg, w, actions)
    requires forall n | Declared(w.doc, n) :: LivesDuring(w, n, w.sites[n], states)
    requires Trace(FabricOf(w), p, path)
    ensures |path| - 1 <= 3
    ensures var last := Handle(FabricOf(w), path[|path| - 1], p, |path| > 1);
            !last.Stray? && (last.Delivered? ==> Owner(w.lib, w.doc, p.dst) == Some(path[|path| - 1]))
  {
    forall n | Declared(w.doc, n)
      ensures GenuineLife(w, w.sites[n])
    {
      LifeIsGenuine(cfg, w, states, actions, n, w.sites[n]);
    }
    DeploymentLoopFree(w, p, path);
  }

  // ---------- what a completed pass leaves ----------

  /** Every declared node is in the table. */
  ghost predicate ListsEveryone(w: World, q: A.Question) {
    forall m | Declared(w.doc, m) :: m in q.rows
  }

  /** A pass that is `Done` on a genuine answer brings the kernel to its target, whatever it found there. */
  lemma DoneReachesTarget(w: World, name: string, s: A.Machine, e: Event, t: A.Machine)
    returns (registry: seq<PeerInfo>)
    requires ValidWorld(w) && Declared(w.doc, name) && e.PassEvent? && e.r.Done? && Genuine(w, e.after)
    requires Happens(w, name, s, e, t)
    ensures A.Hears(e.after, registry) && A.Desired(PlanOf(w, name), registry).Ok?
    ensures t.dev == Target(s.dev, A.Desired(PlanOf(w, name), registry).value)
  {
    registry :| A.Hears(e.after, registry) && A.Locally(PlanOf(w, name), registry, e.local, s, e.r, t);
    A.LocalDevice(PlanOf(w, name), registry, e.local, s, e.r, t);
    AnswerInstallable(w, name, e.after, registry);
  }

  /**
   What a pass that is `Done` leaves in the kernel for node `m`.  A hub is dialled at the address its
   row's endpoint resolves to, with the document's keepalive in seconds; a spoke is left as it was.
   */
  ghost predicate Installed(w: World, q: A.Question, m: string, was: Device, now: Device)
    requires m in w.keys && m in q.rows
  {
    var k, keepalive := w.keys[m], w.doc.spec.wireguard.persistentKeepalive;
    var before := if k in was.peers then was.peers[k] else PeerState(None, 0);
    && k in now.peers
    && if IsHub(w.doc, m) then
         && now.peers[k].endpoint.Some? && ResolveEndpoint(w.lib, q.rows[m].endpoint) == Ok(now.peers[k].endpoint)
         && now.peers[k].keepalive ==
            if keepalive > 0 then keepalive / 1_000_000_000 % 65536 else before.keepalive
       else now.peers[k] == before
  }

  /** A computed peer, once installed. */
  lemma PeerIsInstalled(w: World, name: string, q: A.Question, registry: seq<PeerInfo>, s: Device, j: nat)
    requires ValidWorld(w) && Declared(w.doc, name) && Genuine(w, q) && A.Hears(q, registry) && ValidDevice(s)
    requires A.Desired(PlanOf(w, name), registry).Ok? && j < |A.Desired(PlanOf(w, name), registry).value|
    ensures var desired := A.Desired(PlanOf(w, name), registry).value;
            var m := desired[j].name;
            && m in q.rows && m in w.keys && desired[j].publicKey == w.keys[m] && DependsOn(w.doc, name, m)
            && Installed(w, q, m, s, Target(s, desired))
  {
    var keepalive := w.doc.spec.wireguard.persistentKeepalive;
    var desired := A.Desired(PlanOf(w, name), registry).value;
    ViewOfAnswer(w, q, registry);
    A.HeardMeaning(q, registry);
    PeersForMembers(w.lib, w.doc, name, registry, keepalive);
    PeerSettings(w.lib, w.doc, name, registry, keepalive);
    AnswerInstallable(w, name, q, registry);
    TargetFacts(s, desired);
    assert desired[j] in desired;
    assert HasSettings(w.lib, w.doc, ByName(registry), keepalive, desired[j]);
    assert Settled(Target(s, desired), desired[j], Merge(s, desired[j]));
  }

  /** A listed node that `name` depends on is among its computed peers. */
  lemma DependencyIsWanted(w: World, name: string, q: A.Question, registry: seq<PeerInfo>, m: string) returns (j: nat)
    requires ValidWorld(w) && Declared(w.doc, name) && Genuine(w, q) && A.Hears(q, registry)
    requires A.Desired(PlanOf(w, name), registry).Ok? && m in q.rows && DependsOn(w.doc, name, m)
    ensures j < |A.Desired(PlanOf(w, name), registry).value| && A.Desired(PlanOf(w, name), registry).value[j].name == m
  {
    DependencyDeclared(w.lib, w.doc, name, m);
    A.HeardMeaning(q, registry);
    PeersForMembers(w.lib, w.doc, name, registry, w.doc.spec.wireguard.persistentKeepalive);
    j := PeerIndex(A.Desired(PlanOf(w, name), registry).value, m);
  }

  /** Every peer of the target is a computed one. */
  lemma TargetPeer(w: World, name: string, q: A.Question, registry: seq<PeerInfo>, s: Device, k: Key) returns (j: nat)
    requires ValidWorld(w) && Declared(w.doc, name) && Genuine(w, q) && A.Hears(q, registry) && ValidDevice(s)
    requires A.Desired(PlanOf(w, name), registry).Ok?
    requires k in Target(s, A.Desired(PlanOf(w, name), registry).value).peers
    ensures j < |A.Desired(PlanOf(w, name), registry).value|
    ensures A.Desired(PlanOf(w, name), registry).value[j].publicKey == k
  {
    var desired := A.Desired(PlanOf(w, name), registry).value;
    AnswerInstallable(w, name, q, registry);
    TargetFacts(s, desired);
    var p :| p in desired && p.publicKey == k;
    j :| 0 <= j < |desired| && desired[j] == p;
  }

  /** Node `m` is listed, this node depends on it, and its key is `k`. */
  ghost predicate ListedDependency(w: World, name: string, q: A.Question, m: string, k: Key) {
    Declared(w.doc, name) && m in q.rows && DependsOn(w.doc, name, m) && m in w.keys && w.keys[m] == k
  }

  /**
   A pass that is `Done` on a genuine answer leaves in the kernel exactly the listed nodes this one
   depends on, each under its own key and with the settings it should have.
   */
  lemma DoneInstalls(w: World, name: string, s: A.Machine, e: Event, t: A.Machine)
    requires ValidWorld(w) && Declared(w.doc, name) && e.PassEvent? && e.r.Done? && Genuine(w, e.after)
    requires Happens(w, name, s, e, t) && ValidDevice(s.dev)
    ensures forall m | m in e.after.rows && DependsOn(w.doc, name, m) ::
              m in w.keys && Installed(w, e.after, m, s.dev, t.dev)
    ensures forall k <- t.dev.peers :: exists m :: ListedDependency(w, name, e.after, m, k)
  {
    var registry := DoneReachesTarget(w, name, s, e, t);
    forall m | m in e.after.rows && DependsOn(w.doc, name, m)
      ensures m in w.keys && Installed(w, e.after, m, s.dev, t.dev)
    {
      var j := DependencyIsWanted(w, name, e.after, registry, m);
      PeerIsInstalled(w, name, e.after, registry, s.dev, j);
    }
    forall k | k in t.dev.peers
      ensures exists m :: ListedDependency(w, name, e.after, m, k)
    {
      var j := TargetPeer(w, name, e.after, registry, s.dev, k);
      PeerIsInstalled(w, name, e.after, registry, s.dev, j);
      assert ListedDependency(w, name, e.after, A.Desired(PlanOf(w, name), registry).value[j].name, k);
    }
  }

  lemma EventKeepsValid(w: World, name: string, s: A.Machine, e: Event, t: A.Machine)
    requires Happens(w, name, s, e, t) && ValidDevice(s.dev)
    ensures ValidDevice(t.dev)
  {
    if e.PassEvent? {
      var plan := PlanOf(w, name);
      var registry :| A.Hears(e.after, registry) && A.Locally(plan, registry, e.local, s, e.r, t);
      A.LocalDevice(plan, registry, e.local, s, e.r, t);
      if A.Desired(plan, registry).Ok? {
        AppliesFacts(s.dev, A.Desired(plan, registry).value, t.dev, !e.r.ApplyFailed?);
      }
    }
  }

  lemma {:induction false} LifeStaysValid(w: World, name: string, s: Site, i: nat)
    requires Lives(w, name, s) && i <= |s.events|
    ensures ValidDevice(s.machines[i].dev)
  {
    if i > 0 {
      LifeStaysValid(w, name, s, i - 1);
      assert HappensAt(w, name, s, i - 1);
      EventKeepsValid(w, name, s.machines[i - 1], s.events[i - 1], s.machines[i]);
    }
  }

  /** At every point of every life, a pass that is `Done` installs just what it should. */
  lemma LifeInstalls(w: World, name: string, s: Site, i: nat)
    requires ValidWorld(w) && Declared(w.doc, name) && Lives(w, name, s) && i < |s.events|
    requires s.events[i].PassEvent? && s.events[i].r.Done? && Genuine(w, s.events[i].after)
    ensures var q, was, now := s.events[i].after, s.machines[i].dev, s.machines[i + 1].dev;
            && (forall m | m in q.rows && DependsOn(w.doc, name, m) :: m in w.keys && Installed(w, q, m, was, now))
            && forall k <- now.peers :: exists m :: ListedDependency(w, name, q, m, k)
  {
    LifeStaysValid(w, name, s, i);
    assert HappensAt(w, name, s, i);
    DoneInstalls(w, name, s.machines[i], s.events[i], s.machines[i + 1]);
  }

  lemma SameKeys(d: Document, rows: map<string, Row>, keys: map<string, Key>, view: map<string, Key>)
    requires forall n :: n in view <==> n in rows && Declared(d, n)
    requires forall n :: n in keys <==> Declared(d, n)
    requires forall n | Declared(d, n) :: n in rows
    requires forall n <- view :: n in keys && view[n] == keys[n]
    ensures view == keys
  {
    assert forall n :: n in view <==> n in keys;
  }

  lemma FullView(w: World, q: A.Question, registry: seq<PeerInfo>)
    requires ValidWorld(w) && Genuine(w, q) && A.Hears(q, registry) && ListsEveryone(w, q)
    ensures KeyView(w.lib, ByName(registry)) == w.keys
  {
    ViewOfAnswer(w, q, registry);
    SameKeys(w.doc, q.rows, w.keys, KeyView(w.lib, ByName(registry)));
  }

  /** So a pass that is `Done` on a table that lists everyone leaves every expected route. */
  lemma DoneRoutes(w: World, name: string, s: Site, k: nat)
    requires ValidWorld(w) && Declared(w.doc, name) && k < |s.events| < |s.machines| && HappensAt(w, name, s, k)
    requires s.events[k].PassEvent? && s.events[k].r.Done?
    requires Genuine(w, s.events[k].after) && ListsEveryone(w, s.events[k].after)
    ensures RoutesAsExpected(w.lib, w.doc, name, w.keys, s.machines[k + 1].dev.allowed)
  {
    var registry := DoneReachesTarget(w, name, s.machines[k], s.events[k], s.machines[k + 1]);
    FullView(w, s.events[k].after, registry);
    PeersForRoutes(w.lib, w.doc, name, registry, w.doc.spec.wireguard.persistentKeepalive);
  }

  /** Other programs put nothing before the jump and do not drop it. */
  ghost predicate RespectfulEvent(s: A.Machine, e: Event, t: A.Machine) {
    e.EditEvent? && s.filter.Some? && t.filter.Some? ==>
      F.Respectful(s.filter.value.Jump(), s.filter.value.table, t.filter.value.table)
  }

  ghost predicate RespectfulAt(s: Site, i: nat)
    requires i < |s.events| < |s.machines|
  {
    RespectfulEvent(s.machines[i], s.events[i], s.machines[i + 1])
  }

  ghost predicate RespectfulLife(s: Site)
    requires |s.machines| == |s.events| + 1
  {
    forall i | 0 <= i < |s.events| :: RespectfulAt(s, i)
  }

  /** What a pass did to the filter table, as a step of its life cycle; `None` if nothing. */
  lemma PassFilterStep(w: World, name: string, s: A.Machine, e: Event, t: A.Machine) returns (op: Option<F.Op>)
    requires Happens(w, name, s, e, t) && s.filter.Some?
    requires e.PassEvent?
    ensures t.filter.Some? && t.filter.value.iface == s.filter.value.iface
    ensures op.None? ==> t.filter == s.filter && !e.r.Done?
    ensures op.Some? ==>
              && op.value.ReconcileOp? && op.value.ok == e.r.Done?
              && F.Step(s.filter.value.Jump(), s.filter.value.table, op.value, t.filter.value.table)
              && exists c :: IsCompiled(w.lib, w.doc, c) && op.value.rules == Chain(c)
  {
    var plan := PlanOf(w, name);
    var registry :| A.Hears(e.after, registry) && A.Locally(plan, registry, e.local, s, e.r, t);
    A.LocalFilter(plan, registry, e.local, s, e.r, t);
    if !e.r.Done? && t.filter == s.filter {
      return None;
    }
    var c :| IsCompiled(w.lib, w.doc, c) &&
             F.Reconciles(s.filter.value.Jump(), Chain(c), s.filter.value.table, t.filter.value.table, e.r.Done?);
    return Some(F.ReconcileOp(Chain(c), e.r.Done?));
  }

  /** What the event did to the filter table, as a step of its life cycle; `None` if nothing. */
  lemma FilterStep(w: World, name: string, s: A.Machine, e: Event, t: A.Machine) returns (op: Option<F.Op>)
    requires Happens(w, name, s, e, t) && s.filter.Some?
    ensures t.filter.Some? && t.filter.value.iface == s.filter.value.iface
    ensures op.None? ==> t.filter == s.filter
    ensures op.Some? ==> F.Step(s.filter.value.Jump(), s.filter.value.table, op.value, t.filter.value.table)
    ensures op.Some? && op.value.ForeignOp? ==> e.EditEvent?
    ensures e.PassEvent? && e.r.Done? ==>
              && op.Some? && op.value.ReconcileOp? && op.value.ok
              && exists c :: IsCompiled(w.lib, w.doc, c) && op.value.rules == Chain(c)
  {
    match e
    case PassEvent(q, now, after, local, r) =>
      op := PassFilterStep(w, name, s, e, t);
    case RoamEvent => op := None;
    case EditEvent => op := Some(F.ForeignOp);
    case RestartEvent(clean) => op := Some(F.TeardownOp(clean));
  }

  lemma EventKeepsOrder(w: World, name: string, s: A.Machine, e: Event, t: A.Machine)
    requires Happens(w, name, s, e, t)
    requires s.filter.Some? && Orderly(s) && RespectfulEvent(s, e, t)
    ensures t.filter.Some? && Orderly(t)
  {
    var op := FilterStep(w, name, s, e, t);
    if op.Some? {
      F.StepKeepsSound(s.filter.value.Jump(), s.filter.value.table, op.value, t.filter.value.table);
      F.StepLeads(s.filter.value.Jump(), s.filter.value.table, op.value, t.filter.value.table);
    }
  }

  lemma {:induction false} LifeStaysOrderly(w: World, name: string, s: Site, i: nat)
    requires IsHub(w.doc, name) && Lives(w, name, s) && RespectfulLife(s) && i <= |s.events|
    ensures s.machines[i].filter.Some? && Orderly(s.machines[i])
  {
    if i > 0 {
      LifeStaysOrderly(w, name, s, i - 1);
      assert HappensAt(w, name, s, i - 1);
      assert RespectfulAt(s, i - 1);
      EventKeepsOrder(w, name, s.machines[i - 1], s.events[i - 1], s.machines[i]);
    }
  }

  /** FORWARD starts with the jump, and the chain is the compiled one. */
  ghost predicate HasPolicy(w: World, m: A.Machine) {
    && m.filter.Some? && F.JumpFirst(m.filter.value.Jump(), m.filter.value.table.forward)
    && exists c :: IsCompiled(w.lib, w.doc, c) && m.filter.value.table.chain == Some(Chain(c))
  }

  /** A pass that is `Done` leaves a hub's policy in force exactly when nothing came before the jump. */
  lemma DoneEnforces(w: World, name: string, s: A.Machine, e: Event, t: A.Machine)
    requires e.PassEvent? && e.r.Done? && Happens(w, name, s, e, t)
    requires s.filter.Some?
    ensures HasPolicy(w, t) <==> F.JumpLeads(s.filter.value.Jump(), s.filter.value.table.forward)
  {
    var op := FilterStep(w, name, s, e, t);
    F.ReconcileLeads(s.filter.value.Jump(), op.value.rules, s.filter.value.table, t.filter.value.table);
  }

  /** On a machine with the policy the chain's verdict on tunnel traffic stands. */
  lemma VerdictStands(m: A.Machine, rules: seq<ChainRule>, rest: F.Rest, p: Packet, accept: bool)
    requires m.filter.Some? && F.JumpFirst(m.filter.value.Jump(), m.filter.value.table.forward)
    requires m.filter.value.table.chain == Some(rules) && Verdict(rules, p) == Some(if accept then Accept else Drop)
    ensures NodeOf(m, rest).forwards(p) == accept
  {
    var f, x := m.filter.value, OverlayTransit(m, p);
    F.JumpMeaning(f.iface, x);
    F.JumpFirstLeads(f.iface, f.table.forward, x);
    F.LedIsDecided(f.table.forward, rules, rest, x, accept);
  }

  /** A machine with the policy lets through exactly what the compiled chain accepts and drops. */
  lemma PolicyIsEnforced(w: World, m: A.Machine, rest: F.Rest)
    requires HasPolicy(w, m)
    ensures EnforcesPolicy(w.lib, w.doc, NodeOf(m, rest).forwards)
  {
    var c :| IsCompiled(w.lib, w.doc, c) && m.filter.value.table.chain == Some(Chain(c));
    var forwards := NodeOf(m, rest).forwards;
    forall p | Verdict(Chain(c), p) == Some(Accept)
      ensures forwards(p)
    {
      VerdictStands(m, Chain(c), rest, p, true);
    }
    forall p | Verdict(Chain(c), p) == Some(Drop)
      ensures !forwards(p)
    {
      VerdictStands(m, Chain(c), rest, p, false);
    }
    assert Enforces(forwards, Chain(c));
  }

  // ---------- everyone reconciled ----------

  /** The last thing the agent did, at event `k`, was a pass that is `Done`. */
  ghost predicate LastDone(s: Site, k: nat) {
    && k < |s.events| && s.events[k].PassEvent? && s.events[k].r.Done?
    && forall i | k < i < |s.events| :: s.events[i].RoamEvent? || s.events[i].EditEvent?
  }

  /** The site's last pass is `Done`, on a genuine table that lists everyone; others respect its firewall. */
  ghost predicate SiteComplete(w: World, name: string, s: Site) {
    && Lives(w, name, s) && RespectfulLife(s)
    && exists k: nat :: LastDone(s, k) && Genuine(w, s.events[k].after) && ListsEveryone(w, s.events[k].after)
  }

  lemma QuietKeepsTable(w: World, name: string, s: A.Machine, e: Event, t: A.Machine)
    requires Happens(w, name, s, e, t)
    requires e.RoamEvent? || e.EditEvent?
    ensures t.dev.allowed == s.dev.allowed
  {
  }

  lemma {:induction false} TableStays(w: World, name: string, s: Site, k: nat, i: nat)
    requires Lives(w, name, s) && LastDone(s, k)
    requires k < i <= |s.events|
    ensures s.machines[i].dev.allowed == s.machines[k + 1].dev.allowed
  {
    if i > k + 1 {
      TableStays(w, name, s, k, i - 1);
      assert HappensAt(w, name, s, i - 1);
      QuietKeepsTable(w, name, s.machines[i - 1], s.events[i - 1], s.machines[i]);
    }
  }

  lemma LastDoneRoutes(w: World, name: string, s: Site, k: nat)
    requires ValidWorld(w) && Declared(w.doc, name) && Lives(w, name, s) && LastDone(s, k)
    requires Genuine(w, s.events[k].after) && ListsEveryone(w, s.events[k].after)
    ensures RoutesAsExpected(w.lib, w.doc, name, w.keys, Last(s).dev.allowed)
  {
    TableStays(w, name, s, k, |s.events|);
    DoneRoutes(w, name, s, k);
  }

  lemma PolicySurvives(w: World, name: string, s: A.Machine, e: Event, t: A.Machine)
    requires Happens(w, name, s, e, t)
    requires (e.RoamEvent? || e.EditEvent?) && RespectfulEvent(s, e, t) && HasPolicy(w, s)
    ensures HasPolicy(w, t)
  {
  }

  lemma {:induction false} PolicyStays(w: World, name: string, s: Site, k: nat, i: nat)
    requires IsHub(w.doc, name) && Lives(w, name, s) && RespectfulLife(s)
    requires LastDone(s, k) && k < i <= |s.events|
    ensures HasPolicy(w, s.machines[i])
  {
    assert HappensAt(w, name, s, i - 1);
    if i == k + 1 {
      LifeStaysOrderly(w, name, s, k);
      DoneEnforces(w, name, s.machines[k], s.events[k], s.machines[i]);
    } else {
      PolicyStays(w, name, s, k, i - 1);
      assert RespectfulAt(s, i - 1);
      PolicySurvives(w, name, s.machines[i - 1], s.events[i - 1], s.machines[i]);
    }
  }

  lemma LastDoneEnforces(w: World, name: string, s: Site, k: nat)
    requires IsHub(w.doc, name) && Lives(w, name, s) && RespectfulLife(s) && LastDone(s, k)
    ensures EnforcesPolicy(w.lib, w.doc, NodeOf(Last(s), s.rest).forwards)
  {
    PolicyStays(w, name, s, k, |s.events|);
    PolicyIsEnforced(w, Last(s), s.rest);
  }

  /** A complete site has every route and, on a hub, enforces the policy. */
  lemma CompleteSite(w: World, name: string, s: Site)
    requires ValidWorld(w) && Declared(w.doc, name) && SiteComplete(w, name, s)
    ensures RoutesAsExpected(w.lib, w.doc, name, w.keys, Last(s).dev.allowed)
    ensures IsHub(w.doc, name) ==> EnforcesPolicy(w.lib, w.doc, NodeOf(Last(s), s.rest).forwards)
  {
    var k: nat :| LastDone(s, k) && Genuine(w, s.events[k].after) && ListsEveryone(w, s.events[k].after);
    LastDoneRoutes(w, name, s, k);
    if IsHub(w.doc, name) {
      LastDoneEnforces(w, name, s, k);
    }
  }

  /** Every node's last pass is `Done` on a table that lists everyone. */
  ghost predicate FullyReconciled(w: World) {
    ValidWorld(w) && forall n | Declared(w.doc, n) :: SiteComplete(w, n, w.sites[n])
  }

  lemma DeploymentConverges(w: World)
    requires FullyReconciled(w)
    ensures Converged(FabricOf(w))
  {
    var f := FabricOf(w);
    forall n | Declared(w.doc, n)
      ensures RoutesAsExpected(f.lib, f.doc, n, f.keys, f.nodes[n].allowed)
      ensures IsHub(f.doc, n) ==> EnforcesPolicy(f.lib, f.doc, f.nodes[n].forwards)
    {
      CompleteSite(w, n, w.sites[n]);
    }
  }

  /** The fate of a packet: the path it takes and how it ends, and no other. */
  ghost predicate HasFate(f: Fabric, a: string, b: string, path: seq<string>, end: Outcome)
    requires ValidFabric(f)
  {
    && Reaches(f, PacketBetween(f, a, b), a, path, end) && !end.Next?
    && forall path', end' :: Reaches(f, PacketBetween(f, a, b), a, path', end') && !end'.Next? ==>
         path' == path && end' == end
  }

  /**
   End to end: once the last pass of every node is `Done` on a table that lists everyone, a packet between
   two declared nodes has one fate: it is delivered, in at most three tunnel hops, exactly when the
   document permits it, and is otherwise dropped by the first hub.
   */
  lemma DeploymentEndToEnd(w: World, a: string, b: string) returns (path: seq<string>, end: Outcome)
    requires FullyReconciled(w) && Declared(w.doc, a) && Declared(w.doc, b) && a != b
    ensures HasFate(FabricOf(w), a, b, path, end) && |path| - 1 <= 3
    ensures if Permitted(w.doc, a, b) then end.Delivered? && path[|path| - 1] == b
            else IsSpoke(w.doc, a) && end.Filtered? && path == [a, HubOf(w.doc, a)]
  {
    DeploymentConverges(w);
    path, end := EndToEnd(FabricOf(w), a, b);
  }

  /** The site's last pass is `Done` on the table of a moment of the run when everyone was registered. */
  ghost predicate CompletedDuring(w: World, name: string, s: Site, states: seq<P.Sys>) {
    && Lives(w, name, s) && RespectfulLife(s)
    && exists k: nat ::
         LastDone(s, k) && DrawnFrom(w, s.events[k].after, states) && ListsEveryone(w, s.events[k].after)
  }

  lemma CompletedSite(cfg: P.Config, w: World, states: seq<P.Sys>, actions: seq<P.Action>, name: string, s: Site)
    requires P.Run(cfg, states, actions) && HonestKeys(cfg, w, actions) && CompletedDuring(w, name, s, states)
    ensures SiteComplete(w, name, s)
  {
    var k: nat :| LastDone(s, k) && DrawnFrom(w, s.events[k].after, states) && ListsEveryone(w, s.events[k].after);
    DrawnIsGenuine(cfg, w, states, actions, s.events[k].after);
  }

  lemma CompletedEverywhere(cfg: P.Config, w: World, states: seq<P.Sys>, actions: seq<P.Action>)
    requires ValidWorld(w) && P.Run(cfg, states, actions) && HonestKeys(cfg, w, actions)
    requires forall n | Declared(w.doc, n) :: CompletedDuring(w, n, w.sites[n], states)
    ensures FullyReconciled(w)
  {
    forall n | Declared(w.doc, n)
      ensures SiteComplete(w, n, w.sites[n])
    {
      CompletedSite(cfg, w, states, actions, n, w.sites[n]);
    }
  }

  /**
   End to end over runs: whatever interleaving of registrations and heartbeats led there and whatever
   each node went through before, once the last pass of every node is `Done` on a table that lists
   everyone, delivery is exactly what the document permits.
   */
  lemma RunEndToEnd(cfg: P.Config, w: World, states: seq<P.Sys>, actions: seq<P.Action>, a: string, b: string)
    returns (path: seq<string>, end: Outcome)
    requires ValidWorld(w) && P.Run(cfg, states, actions) && HonestKeys(cfg, w, actions)
    requires forall n | Declared(w.doc, n) :: CompletedDuring(w, n, w.sites[n], states)
    requires Declared(w.doc, a) && Declared(w.doc, b) && a != b
    ensures HasFate(FabricOf(w), a, b, path, end) && |path| - 1 <= 3
    ensures if Permitted(w.doc, a, b) then end.Delivered? && path[|path| - 1] == b
            else IsSpoke(w.doc, a) && end.Filtered? && path == [a, HubOf(w.doc, a)]
  {
    CompletedEverywhere(cfg, w, states, actions);
    path, end := DeploymentEndToEnd(w, a, b);
  }

  // ---------- and the passes do complete ----------

  /** Every declared hub is shown with an endpoint that resolves. */
  ghost predicate HubsResolve(w: World, q: A.Question) {
    forall m <- q.rows :: IsHub(w.doc, m) ==> A.Resolves(w.lib, q.rows[m].endpoint)
  }

  /** Such a table lets every node compute its peers. */
  lemma TableComputes(w: World, name: string, q: A.Question)
    requires ValidWorld(w) && Declared(w.doc, name)
    requires Genuine(w, q) && ListsEveryone(w, q) && HubsResolve(w, q) && A.ReportsSafely(w.lib, name, q)
    ensures A.CanCompute(PlanOf(w, name), name, q)
  {
    DeclaredFacts(w.lib, w.doc, name);
    forall m | m in q.rows && DependsOn(w.doc, name, m)
      ensures A.RowDialable(w.lib, w.doc, q.rows[m])
    {
    }
  }

  /**
   On a genuine table that lists everyone, with hub endpoints that resolve, a pass on a working machine
   is `Done`: the assumption of the end-to-end theorem is what each node's next pass brings about.
   */
  lemma PassCompletes(w: World, name: string, s: A.Machine, e: Event, t: A.Machine)
    requires ValidWorld(w) && Declared(w.doc, name) && e.PassEvent? && e.local == A.Local(true, true)
    requires Genuine(w, e.q) && ListsEveryone(w, e.q) && HubsResolve(w, e.q) && A.ReportsSafely(w.lib, name, e.q)
    requires Happens(w, name, s, e, t)
    ensures e.r.Done?
  {
    TableComputes(w, name, e.q);
    A.MustBeDone(PlanOf(w, name), name, e.q, e.now, e.after, s, e.r, t);
  }

  /** Under one document, the hubs of every reachable table have endpoints; so it is enough that they resolve. */
  lemma RunHubsResolve(cfg: P.Config, w: World, states: seq<P.Sys>, actions: seq<P.Action>, q: A.Question)
    requires ValidWorld(w) && P.Run(cfg, states, actions) && P.SameSpec(actions, w.doc) && DrawnFrom(w, q, states)
    requires forall m <- q.rows :: IsHub(w.doc, m) && q.rows[m].endpoint != "" ==>
                                     ResolveEndpoint(w.lib, q.rows[m].endpoint).Ok?
    ensures HubsResolve(w, q)
  {
    var i :| 0 <= i < |states| && q.rows == states[i].rows;
    P.HubEndpointInvariant(cfg, w.lib, w.doc, states, actions, i);
  }
}
