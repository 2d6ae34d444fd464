/**
 The WireGuard peer reconciler: the kernel device it configures, the diff it
 computes and the proof that the incremental update equals a full replacement.

 The kernel keeps one table from masked prefix to owning peer, so giving a prefix
 to one peer takes it from another.
 */
module Wg {
  import opened Net
  import opened Sequences

  /** The agent's description of a peer; `keepalive` is in nanoseconds. */
  datatype Peer = Peer(
    name: string,
    publicKey: Key,
    endpoint: Option<UdpAddr>,
    allowedIPs: seq<Prefix>,
    keepalive: int)

  const SECOND := 1_000_000_000

  // ---------- the kernel device ----------

  /** Per-peer kernel settings; `keepalive` is in seconds, 0 meaning off. */
  datatype PeerState = PeerState(endpoint: Option<UdpAddr>, keepalive: nat)

  datatype Device = Device(peers: map<Key, PeerState>, allowed: map<Prefix, Key>)

  ghost predicate ValidDevice(d: Device) {
    && (forall p <- d.allowed :: d.allowed[p] in d.peers)
    && (forall k <- d.peers :: d.peers[k].keepalive < 65536)
    && AllMasked(d.allowed)
  }

  function Owned(allowed: map<Prefix, Key>, k: Key): (r: set<Prefix>) {
    set p | p in allowed && allowed[p] == k
  }

  datatype PeerConfig = PeerConfig(
    publicKey: Key,
    remove: bool,
    replaceAllowedIPs: bool,
    endpoint: Option<UdpAddr>,
    keepalive: Option<int>,
    allowedIPs: seq<Prefix>)

  function DropOwned(allowed: map<Prefix, Key>, k: Key): (r: map<Prefix, Key>) {
    map p | p in allowed && allowed[p] != k :: allowed[p]
  }

  /** Give every prefix of `ips` to `k`, whoever had it. */
  function Assign(allowed: map<Prefix, Key>, ips: seq<Prefix>, k: Key): (r: map<Prefix, Key>) {
    if ips == [] then allowed
    else Assign(allowed, ips[..|ips| - 1], k)[Masked(ips[|ips| - 1]) := k]
  }

  /** The kernel's keepalive field is 16 bits of whole seconds. */
  function KernelKeepalive(ns: int): (r: nat)
    requires ns > 0
  {
    ns / SECOND % 65536
  }

  function StateOf(d: Device, k: Key): (r: PeerState) {
    if k in d.peers then d.peers[k] else PeerState(None, 0)
  }

  /** One entry of a ConfigureDevice call. */
  function ConfigureOne(d: Device, c: PeerConfig): (r: Device) {
    if c.remove then
      Device(d.peers - {c.publicKey}, DropOwned(d.allowed, c.publicKey))
    else
      var was := StateOf(d, c.publicKey);
      var endpoint := if c.endpoint.Some? then c.endpoint else was.endpoint;
      var keepalive := if c.keepalive.Some? && c.keepalive.value > 0 then KernelKeepalive(c.keepalive.value)
                       else was.keepalive;
      var base := if c.replaceAllowedIPs then DropOwned(d.allowed, c.publicKey) else d.allowed;
      Device(d.peers[c.publicKey := PeerState(endpoint, keepalive)], Assign(base, c.allowedIPs, c.publicKey))
  }

  /** A ConfigureDevice call: its entries in order. */
  function Configure(d: Device, cs: seq<PeerConfig>): (r: Device) {
    if cs == [] then d else ConfigureOne(Configure(d, cs[..|cs| - 1]), cs[|cs| - 1])
  }

  // ---------- comparing peers ----------

  function NormalizeKeepalive(ns: int): (r: int) {
    if ns < 0 then 0 else ns
  }

  /** Same settings, AllowedIPs compared without regard to order. */
  ghost predicate SamePeer(a: Peer, b: Peer) {
    && a.publicKey == b.publicKey
    && a.endpoint == b.endpoint
    && multiset(a.allowedIPs) == multiset(b.allowedIPs)
    && NormalizeKeepalive(a.keepalive) == NormalizeKeepalive(b.keepalive)
  }

  predicate PrefixLess(a: Prefix, b: Prefix) {
    a.addr < b.addr || (a.addr == b.addr && a.bits < b.bits)
  }

  method SameInOrder(x: seq<Prefix>, y: seq<Prefix>) returns (r: bool)
    requires |x| == |y|
    ensures r <==> x == y
  {
    for i := 0 to |x|
      invariant x[..i] == y[..i]
    {
      if x[i] != y[i] {
        return false;
      }
      assert x[..i + 1] == x[..i] + [x[i]] && y[..i + 1] == y[..i] + [y[i]];
    }
    assert x[..|x|] == x && y[..|y|] == y;
    return true;
  }

  method PrefixSetsEqual(a: seq<Prefix>, b: seq<Prefix>) returns (r: bool)
    ensures r <==> multiset(a) == multiset(b)
  {
    if |a| != |b| {
      assert |multiset(a)| != |multiset(b)|;
      return false;
    }
    var x := Sort(a, PrefixLess);
    var y := Sort(b, PrefixLess);
    assert |x| == |multiset(x)| == |a| && |y| == |multiset(y)| == |b|;
    if multiset(a) == multiset(b) {
      SortedUnique(x, y, PrefixLess);
    }
    r := SameInOrder(x, y);
  }

  method PeersEqual(a: Peer, b: Peer) returns (r: bool)
    ensures r <==> SamePeer(a, b)
  {
    if a.publicKey != b.publicKey || a.endpoint != b.endpoint {
      return false;
    }
    var same := PrefixSetsEqual(a.allowedIPs, b.allowedIPs);
    return same && NormalizeKeepalive(a.keepalive) == NormalizeKeepalive(b.keepalive);
  }

  // ---------- the diff ----------

  datatype Diff = Diff(added: seq<Peer>, updated: seq<Peer>, removed: seq<Key>)

  predicate EmptyDiff(d: Diff) {
    |d.added| == 0 && |d.updated| == 0 && |d.removed| == 0
  }

  ghost function AddedOf(current: map<Key, Peer>, desired: seq<Peer>): (r: seq<Peer>) {
    if desired == [] then []
    else
      var want := desired[|desired| - 1];
      var before := AddedOf(current, desired[..|desired| - 1]);
      if want.publicKey !in current then before + [want] else before
  }

  ghost predicate Changed(current: map<Key, Peer>, want: Peer) {
    want.publicKey in current && !SamePeer(current[want.publicKey], want)
  }

  ghost function UpdatedOf(current: map<Key, Peer>, desired: seq<Peer>): (r: seq<Peer>) {
    if desired == [] then []
    else
      var want := desired[|desired| - 1];
      var before := UpdatedOf(current, desired[..|desired| - 1]);
      if Changed(current, want) then before + [want] else before
  }

  ghost function KeysOf(desired: seq<Peer>): (r: set<Key>) {
    set p | p in desired :: p.publicKey
  }

  /** What a diff must be; the order of removals is the order of a map iteration, so it is left open. */
  ghost predicate IsDiff(diff: Diff, current: map<Key, Peer>, desired: seq<Peer>) {
    && diff.added == AddedOf(current, desired)
    && diff.updated == UpdatedOf(current, desired)
    && Elements(diff.removed) == current.Keys - KeysOf(desired)
    && NoDuplicates(diff.removed)
  }

  method ComputeDiff(current: map<Key, Peer>, desired: seq<Peer>) returns (d: Diff)
    ensures IsDiff(d, current, desired)
  {
    d := Diff([], [], []);
    var seen := {};
    for i := 0 to |desired|
      invariant d.added == AddedOf(current, desired[..i]) && d.updated == UpdatedOf(current, desired[..i])
      invariant d.removed == [] && seen == KeysOf(desired[..i])
    {
      var want := desired[i];
      assert desired[..i + 1][..i] == desired[..i] && desired[..i + 1] == desired[..i] + [want];
      seen := seen + {want.publicKey};
      if want.publicKey !in current {
        d := d.(added := d.added + [want]);
        continue;
      }
      var same := PeersEqual(current[want.publicKey], want);
      if !same {
        d := d.(updated := d.updated + [want]);
      }
    }
    assert desired[..|desired|] == desired;
    var todo := current.Keys;
    while todo != {}
      invariant todo <= current.Keys
      invariant d.added == AddedOf(current, desired) && d.updated == UpdatedOf(current, desired)
      invariant Elements(d.removed) == current.Keys - todo - seen && NoDuplicates(d.removed)
      decreases todo
    {
      var k :| k in todo;
      if k !in seen {
        assert k !in Elements(d.removed);
        assert Elements(d.removed + [k]) == Elements(d.removed) + {k};
        d := d.(removed := d.removed + [k]);
      }
      todo := todo - {k};
    }
  }

  // ---------- reading and configuring ----------

  /** `current` is what reading the device returns: each peer's prefixes in some order. */
  ghost predicate Reads(d: Device, current: map<Key, Peer>) {
    && current.Keys == d.peers.Keys
    && forall k <- current ::
         && current[k].publicKey == k
         && current[k].endpoint == d.peers[k].endpoint
         && current[k].keepalive == d.peers[k].keepalive * SECOND
         && NoDuplicates(current[k].allowedIPs)
         && Elements(current[k].allowedIPs) == Owned(d.allowed, k)
  }

  function PeerToConfig(p: Peer, replaceAllowedIPs: bool): (c: PeerConfig) {
    PeerConfig(p.publicKey, false, replaceAllowedIPs, p.endpoint,
               if p.keepalive > 0 then Some(p.keepalive) else None, p.allowedIPs)
  }

  function RemoveConfig(k: Key): (c: PeerConfig) {
    PeerConfig(k, true, false, None, None, [])
  }

  function PeerConfigs(ps: seq<Peer>, replace: bool): (cs: seq<PeerConfig>)
    ensures |cs| == |ps|
  {
    seq(|ps|, i requires 0 <= i < |ps| => PeerToConfig(ps[i], replace))
  }

  function RemoveConfigs(ks: seq<Key>): (cs: seq<PeerConfig>)
    ensures |cs| == |ks|
  {
    seq(|ks|, i requires 0 <= i < |ks| => RemoveConfig(ks[i]))
  }

  function DiffConfigs(diff: Diff): (cs: seq<PeerConfig>) {
    PeerConfigs(diff.added, false) + PeerConfigs(diff.updated, true) + RemoveConfigs(diff.removed)
  }

  // ---------- the specification: full replacement ----------

  function MaskedSet(ips: seq<Prefix>): (r: set<Prefix>) {
    set p | p in ips :: Masked(p)
  }

  /** The peer's settings after an update: an absent endpoint or keepalive keeps the kernel's value. */
  function Merge(d: Device, want: Peer): (r: PeerState) {
    var was := StateOf(d, want.publicKey);
    PeerState(if want.endpoint.Some? then want.endpoint else was.endpoint,
              if want.keepalive > 0 then KernelKeepalive(want.keepalive) else was.keepalive)
  }

  function DesiredTable(desired: seq<Peer>): (r: map<Prefix, Key>) {
    if desired == [] then map[]
    else
      var want := desired[|desired| - 1];
      Assign(DesiredTable(desired[..|desired| - 1]), want.allowedIPs, want.publicKey)
  }

  function DesiredPeers(d: Device, desired: seq<Peer>): (r: map<Key, PeerState>) {
    if desired == [] then map[]
    else
      var want := desired[|desired| - 1];
      DesiredPeers(d, desired[..|desired| - 1])[want.publicKey := Merge(d, want)]
  }

  /** Throw the table away and install the desired peers, keeping only unspecified settings. */
  function Target(d: Device, desired: seq<Peer>): (r: Device) {
    Device(DesiredPeers(d, desired), DesiredTable(desired))
  }

  /** No prefix is wanted by two peers. */
  ghost predicate DisjointPrefixes(desired: seq<Peer>) {
    forall i, j | 0 <= i < j < |desired| :: MaskedSet(desired[i].allowedIPs) !! MaskedSet(desired[j].allowedIPs)
  }

  ghost predicate DistinctKeys(desired: seq<Peer>) {
    forall i, j | 0 <= i < j < |desired| :: desired[i].publicKey != desired[j].publicKey
  }

  /** Distinct keys, and no prefix wanted by two peers. */
  ghost predicate Installable(desired: seq<Peer>) {
    DistinctKeys(desired) && DisjointPrefixes(desired)
  }

  /** The device holds `want` exactly, with settings `st`. */
  ghost predicate Settled(d: Device, want: Peer, st: PeerState) {
    && want.publicKey in d.peers && d.peers[want.publicKey] == st
    && Owned(d.allowed, want.publicKey) == MaskedSet(want.allowedIPs)
  }

  lemma {:induction false} AssignFacts(allowed: map<Prefix, Key>, ips: seq<Prefix>, k: Key)
    ensures Assign(allowed, ips, k).Keys == allowed.Keys + MaskedSet(ips)
    ensures forall p <- Assign(allowed, ips, k) ::
              Assign(allowed, ips, k)[p] == if p in MaskedSet(ips) then k else allowed[p]
  {
    if ips != [] {
      var n := |ips| - 1;
      AssignFacts(allowed, ips[..n], k);
      assert ips == ips[..n] + [ips[n]];
      assert MaskedSet(ips) == MaskedSet(ips[..n]) + {Masked(ips[n])};
    }
  }

  lemma SinglePeerTable(p: Peer, q: Prefix)
    requires p.allowedIPs == [q]
    ensures DesiredTable([p]) == map[Masked(q) := p.publicKey]
  {
    assert [p][..0] == [] && [q][..0] == [];
    assert DesiredTable([p]) == Assign(map[], [q], p.publicKey);
    assert Assign(map[], [q], p.publicKey) == Assign(map[], [], p.publicKey)[Masked(q) := p.publicKey];
  }

  /** One install: the peer gets exactly its prefixes, every other peer loses just those. */
  lemma InstallOne(d: Device, want: Peer, replace: bool)
    requires ValidDevice(d)
    requires replace || want.publicKey !in d.peers
    ensures var d' := ConfigureOne(d, PeerToConfig(want, replace));
            && ValidDevice(d')
            && d'.peers == d.peers[want.publicKey := Merge(d, want)]
            && Owned(d'.allowed, want.publicKey) == MaskedSet(want.allowedIPs)
            && forall k | k != want.publicKey ::
                 Owned(d'.allowed, k) == Owned(d.allowed, k) - MaskedSet(want.allowedIPs)
  {
    var k := want.publicKey;
    var base := if replace then DropOwned(d.allowed, k) else d.allowed;
    var d' := ConfigureOne(d, PeerToConfig(want, replace));
    AssignFacts(base, want.allowedIPs, k);
    assert d'.allowed == Assign(base, want.allowedIPs, k);
    forall p | p in MaskedSet(want.allowedIPs)
      ensures Masked(p) == p
    {
      var q :| q in want.allowedIPs && p == Masked(q);
      MaskedFacts(q, 0);
    }
    assert k !in base.Values;
  }

  lemma RemoveOne(d: Device, k: Key)
    requires ValidDevice(d)
    ensures var d' := ConfigureOne(d, RemoveConfig(k));
            && ValidDevice(d')
            && d'.peers == d.peers - {k}
            && forall j | j != k :: Owned(d'.allowed, j) == Owned(d.allowed, j)
  {
  }

  // ---------- convergence ----------

  /** `want` has not been touched yet: its settings, and whether it exists, are as at the start. */
  ghost predicate Untouched(d: Device, now: Device, want: Peer) {
    && StateOf(now, want.publicKey) == StateOf(d, want.publicKey)
    && (want.publicKey in now.peers <==> want.publicKey in d.peers)
  }

  /** With `adds` and `upds` entries of `desired` looked at by the two passes, entry `j` is installed. */
  ghost predicate Done(current: map<Key, Peer>, want: Peer, j: int, adds: nat, upds: nat) {
    if want.publicKey !in current then j < adds
    else Changed(current, want) ==> j < upds
  }

  /** Part-way through a call that began in `d`: some peers are installed, the rest untouched. */
  ghost predicate Progress(d: Device, now: Device, current: map<Key, Peer>, desired: seq<Peer>, adds: nat, upds: nat) {
    && ValidDevice(now)
    && d.peers.Keys <= now.peers.Keys <= d.peers.Keys + KeysOf(desired)
    && forall j | 0 <= j < |desired| ::
         if Done(current, desired[j], j, adds, upds) then Settled(now, desired[j], Merge(d, desired[j]))
         else Untouched(d, now, desired[j])
  }

  /** Installing entry `i` keeps every other entry as it was. */
  lemma InstallKeepsOthers(d: Device, now: Device, desired: seq<Peer>, i: nat, j: nat, replace: bool)
    requires Installable(desired) && i < |desired| && j < |desired| && i != j
    requires ValidDevice(now) && (replace || desired[i].publicKey !in now.peers)
    ensures var now' := ConfigureOne(now, PeerToConfig(desired[i], replace));
            && (Settled(now, desired[j], Merge(d, desired[j])) ==> Settled(now', desired[j], Merge(d, desired[j])))
            && (Untouched(d, now, desired[j]) ==> Untouched(d, now', desired[j]))
  {
    InstallOne(now, desired[i], replace);
    if i < j {
      assert desired[i].publicKey != desired[j].publicKey;
      assert MaskedSet(desired[i].allowedIPs) !! MaskedSet(desired[j].allowedIPs);
    } else {
      assert desired[j].publicKey != desired[i].publicKey;
      assert MaskedSet(desired[j].allowedIPs) !! MaskedSet(desired[i].allowedIPs);
    }
  }

  /** Installing entry `i`, not yet done, makes it done. */
  lemma ProgressStep(d: Device, now: Device, current: map<Key, Peer>, desired: seq<Peer>, adds: nat, upds: nat,
                     i: nat, replace: bool)
    requires Installable(desired) && i < |desired| && current.Keys == d.peers.Keys
    requires Progress(d, now, current, desired, adds, upds)
    requires if replace then i == upds && Changed(current, desired[i])
             else i == adds && desired[i].publicKey !in current
    ensures Progress(d, ConfigureOne(now, PeerToConfig(desired[i], replace)), current, desired,
                     if replace then adds else adds + 1, if replace then upds + 1 else upds)
  {
    var want := desired[i];
    var now' := ConfigureOne(now, PeerToConfig(want, replace));
    assert Untouched(d, now, want);
    InstallOne(now, want, replace);
    forall j | 0 <= j < |desired|
      ensures if Done(current, desired[j], j, if replace then adds else adds + 1, if replace then upds + 1 else upds)
              then Settled(now', desired[j], Merge(d, desired[j])) else Untouched(d, now', desired[j])
    {
      if j != i {
        InstallKeepsOthers(d, now, desired, i, j, replace);
      }
    }
  }

  lemma SameMeansSettled(d: Device, current: map<Key, Peer>, want: Peer)
    requires ValidDevice(d) && Reads(d, current)
    requires want.publicKey in current && SamePeer(current[want.publicKey], want)
    ensures Settled(d, want, Merge(d, want))
    ensures forall p <- want.allowedIPs :: Masked(p) == p
  {
    var have := current[want.publicKey];
    RearrangementFacts(have.allowedIPs, want.allowedIPs);
    assert Elements(want.allowedIPs) == Owned(d.allowed, want.publicKey);
    forall p | p in want.allowedIPs
      ensures Masked(p) == p
    {
      assert p in Elements(want.allowedIPs);
    }
    assert MaskedSet(want.allowedIPs) == Elements(want.allowedIPs) by {
      forall p | p in Elements(want.allowedIPs)
        ensures p in MaskedSet(want.allowedIPs)
      {
        assert Masked(p) == p;
      }
    }
  }

  lemma ConfigureSnoc(d: Device, cs: seq<PeerConfig>, c: PeerConfig)
    ensures Configure(d, cs + [c]) == ConfigureOne(Configure(d, cs), c)
  {
    assert (cs + [c])[..|cs|] == cs;
  }

  lemma InstallSnoc(d: Device, ps: seq<Peer>, want: Peer, replace: bool)
    ensures Configure(d, PeerConfigs(ps + [want], replace)) ==
            ConfigureOne(Configure(d, PeerConfigs(ps, replace)), PeerToConfig(want, replace))
  {
    assert PeerConfigs(ps + [want], replace) == PeerConfigs(ps, replace) + [PeerToConfig(want, replace)];
    ConfigureSnoc(d, PeerConfigs(ps, replace), PeerToConfig(want, replace));
  }

  lemma {:induction false} AddPhase(d: Device, current: map<Key, Peer>, desired: seq<Peer>, n: nat)
    requires ValidDevice(d) && Reads(d, current) && Installable(desired) && n <= |desired|
    ensures Progress(d, Configure(d, PeerConfigs(AddedOf(current, desired[..n]), false)), current, desired, n, 0)
  {
    if n == 0 {
      forall j | 0 <= j < |desired| && Done(current, desired[j], j, 0, 0)
        ensures Settled(d, desired[j], Merge(d, desired[j]))
      {
        SameMeansSettled(d, current, desired[j]);
      }
    } else {
      AddPhase(d, current, desired, n - 1);
      assert desired[..n][..n - 1] == desired[..n - 1];
      if desired[n - 1].publicKey !in current {
        InstallSnoc(d, AddedOf(current, desired[..n - 1]), desired[n - 1], false);
        ProgressStep(d, Configure(d, PeerConfigs(AddedOf(current, desired[..n - 1]), false)), current, desired,
                     n - 1, 0, n - 1, false);
      }
    }
  }

  lemma {:induction false} UpdatePhase(d: Device, now: Device, current: map<Key, Peer>, desired: seq<Peer>, n: nat)
    requires Installable(desired) && n <= |desired| && current.Keys == d.peers.Keys
    requires Progress(d, now, current, desired, |desired|, 0)
    ensures Progress(d, Configure(now, PeerConfigs(UpdatedOf(current, desired[..n]), true)), current, desired,
                     |desired|, n)
  {
    if n > 0 {
      UpdatePhase(d, now, current, desired, n - 1);
      assert desired[..n][..n - 1] == desired[..n - 1];
      if Changed(current, desired[n - 1]) {
        InstallSnoc(now, UpdatedOf(current, desired[..n - 1]), desired[n - 1], true);
        ProgressStep(d, Configure(now, PeerConfigs(UpdatedOf(current, desired[..n - 1]), true)), current, desired,
                     |desired|, n - 1, n - 1, true);
      }
    }
  }

  lemma {:induction false} RemovePhase(now: Device, ks: seq<Key>)
    requires ValidDevice(now)
    ensures var d' := Configure(now, RemoveConfigs(ks));
            && ValidDevice(d')
            && d'.peers == now.peers - Elements(ks)
            && forall k | k !in ks :: Owned(d'.allowed, k) == Owned(now.allowed, k)
  {
    if ks != [] {
      var n := |ks| - 1;
      RemovePhase(now, ks[..n]);
      assert ks == ks[..n] + [ks[n]];
      assert RemoveConfigs(ks) == RemoveConfigs(ks[..n]) + [RemoveConfig(ks[n])];
      ConfigureSnoc(now, RemoveConfigs(ks[..n]), RemoveConfig(ks[n]));
      RemoveOne(Configure(now, RemoveConfigs(ks[..n])), ks[n]);
    }
  }

  lemma {:induction false} ConfigureConcat(d: Device, a: seq<PeerConfig>, b: seq<PeerConfig>)
    ensures Configure(d, a + b) == Configure(Configure(d, a), b)
  {
    if b == [] {
      assert a + b == a;
    } else {
      var n := |b| - 1;
      ConfigureConcat(d, a, b[..n]);
      assert a + b == (a + b[..n]) + [b[n]];
      ConfigureSnoc(d, a + b[..n], b[n]);
    }
  }

  /** The target of one more peer. */
  function WithPeer(t: Device, want: Peer, st: PeerState): (r: Device) {
    Device(t.peers[want.publicKey := st], Assign(t.allowed, want.allowedIPs, want.publicKey))
  }

  lemma TargetSnoc(d: Device, desired: seq<Peer>)
    requires desired != []
    ensures var n := |desired| - 1;
            Target(d, desired) == WithPeer(Target(d, desired[..n]), desired[n], Merge(d, desired[n]))
  {
  }

  lemma LastKeyIsNew(desired: seq<Peer>)
    requires Installable(desired) && desired != []
    ensures var n := |desired| - 1;
            && Installable(desired[..n])
            && desired[n].publicKey !in KeysOf(desired[..n])
            && KeysOf(desired) == KeysOf(desired[..n]) + {desired[n].publicKey}
  {
    var n := |desired| - 1;
    assert desired == desired[..n] + [desired[n]];
    assert forall i | 0 <= i < n :: desired[..n][i] == desired[i];
  }

  lemma AddNew(t: Device, want: Peer, st: PeerState)
    requires ValidDevice(t) && want.publicKey !in t.peers && st.keepalive < 65536
    ensures var t' := WithPeer(t, want, st);
            && ValidDevice(t') && Settled(t', want, st)
            && forall k | k != want.publicKey ::
                 Owned(t'.allowed, k) == Owned(t.allowed, k) - MaskedSet(want.allowedIPs)
  {
    InstallOne(t, want, false);
  }

  lemma {:induction false} TargetValid(d: Device, desired: seq<Peer>)
    requires Installable(desired) && ValidDevice(d)
    ensures ValidDevice(Target(d, desired))
    ensures Target(d, desired).peers.Keys == KeysOf(desired)
  {
    if desired != [] {
      var n := |desired| - 1;
      LastKeyIsNew(desired);
      TargetValid(d, desired[..n]);
      TargetSnoc(d, desired);
      AddNew(Target(d, desired[..n]), desired[n], Merge(d, desired[n]));
    }
  }

  lemma {:induction false} TargetSettles(d: Device, desired: seq<Peer>, j: nat)
    requires Installable(desired) && ValidDevice(d) && j < |desired|
    ensures Settled(Target(d, desired), desired[j], Merge(d, desired[j]))
  {
    var n := |desired| - 1;
    LastKeyIsNew(desired);
    TargetValid(d, desired[..n]);
    TargetSnoc(d, desired);
    AddNew(Target(d, desired[..n]), desired[n], Merge(d, desired[n]));
    if j < n {
      TargetSettles(d, desired[..n], j);
      assert MaskedSet(desired[j].allowedIPs) !! MaskedSet(desired[n].allowedIPs);
    }
  }

  /** The full replacement holds exactly the desired peers. */
  lemma TargetFacts(d: Device, desired: seq<Peer>)
    requires Installable(desired) && ValidDevice(d)
    ensures ValidDevice(Target(d, desired))
    ensures Target(d, desired).peers.Keys == KeysOf(desired)
    ensures forall j | 0 <= j < |desired| :: Settled(Target(d, desired), desired[j], Merge(d, desired[j]))
  {
    TargetValid(d, desired);
    forall j | 0 <= j < |desired|
      ensures Settled(Target(d, desired), desired[j], Merge(d, desired[j]))
    {
      TargetSettles(d, desired, j);
    }
  }

  /** A valid device is determined by its peers' settings and prefixes. */
  lemma SettledUnique(a: Device, b: Device, desired: seq<Peer>, states: seq<PeerState>)
    requires ValidDevice(a) && ValidDevice(b) && |states| == |desired|
    requires a.peers.Keys == b.peers.Keys == KeysOf(desired)
    requires forall j | 0 <= j < |desired| :: Settled(a, desired[j], states[j]) && Settled(b, desired[j], states[j])
    ensures a == b
  {
    forall k | k in a.peers
      ensures a.peers[k] == b.peers[k] && Owned(a.allowed, k) == Owned(b.allowed, k)
    {
      var w :| w in desired && w.publicKey == k;
      var j :| 0 <= j < |desired| && desired[j] == w;
      assert Settled(a, desired[j], states[j]) && Settled(b, desired[j], states[j]);
    }
    forall p
      ensures p in a.allowed <==> p in b.allowed
      ensures p in a.allowed ==> a.allowed[p] == b.allowed[p]
    {
      if p in a.allowed {
        assert p in Owned(a.allowed, a.allowed[p]);
        assert p in Owned(b.allowed, a.allowed[p]);
      }
      if p in b.allowed {
        assert p in Owned(b.allowed, b.allowed[p]);
        assert p in Owned(a.allowed, b.allowed[p]);
      }
    }
    assert a.allowed == b.allowed;
    assert a.peers == b.peers;
  }

  lemma FinishAtTarget(d: Device, now: Device, current: map<Key, Peer>, desired: seq<Peer>, removed: seq<Key>)
    requires ValidDevice(d) && Installable(desired)
    requires Progress(d, now, current, desired, |desired|, |desired|)
    requires Elements(removed) == d.peers.Keys - KeysOf(desired)
    ensures Configure(now, RemoveConfigs(removed)) == Target(d, desired)
  {
    var d' := Configure(now, RemoveConfigs(removed));
    RemovePhase(now, removed);
    TargetFacts(d, desired);
    var states := seq(|desired|, j requires 0 <= j < |desired| => Merge(d, desired[j]));
    forall j | 0 <= j < |desired|
      ensures Settled(d', desired[j], states[j])
    {
      assert desired[j].publicKey in KeysOf(desired);
      assert desired[j].publicKey !in Elements(removed);
      assert Settled(now, desired[j], Merge(d, desired[j]));
    }
    assert d'.peers.Keys == KeysOf(desired);
    SettledUnique(d', Target(d, desired), desired, states);
  }

  /** Reconciler convergence: the incremental update has the effect of the full replacement. */
  lemma DiffReachesTarget(d: Device, current: map<Key, Peer>, desired: seq<Peer>, diff: Diff)
    requires ValidDevice(d) && Reads(d, current) && Installable(desired)
    requires IsDiff(diff, current, desired)
    ensures Configure(d, DiffConfigs(diff)) == Target(d, desired)
  {
    var adds, upds := PeerConfigs(diff.added, false), PeerConfigs(diff.updated, true);
    var rems := RemoveConfigs(diff.removed);
    ConfigureConcat(d, adds + upds, rems);
    ConfigureConcat(d, adds, upds);
    assert desired[..|desired|] == desired;
    AddPhase(d, current, desired, |desired|);
    UpdatePhase(d, Configure(d, adds), current, desired, |desired|);
    FinishAtTarget(d, Configure(Configure(d, adds), upds), current, desired, diff.removed);
  }

  /** The desired table gives each prefix to the one peer that wants it. */
  lemma {:induction false} TableEntries(desired: seq<Peer>)
    requires DisjointPrefixes(desired)
    ensures forall q :: q in DesiredTable(desired) ==> exists p <- desired :: q in MaskedSet(p.allowedIPs)
    ensures forall p <- desired, q <- MaskedSet(p.allowedIPs) ::
              q in DesiredTable(desired) && DesiredTable(desired)[q] == p.publicKey
  {
    if desired != [] {
      var n := |desired| - 1;
      var before, want := desired[..n], desired[n];
      assert desired == before + [want];
      TableEntries(before);
      AssignFacts(DesiredTable(before), want.allowedIPs, want.publicKey);
      forall p | p in before
        ensures MaskedSet(p.allowedIPs) !! MaskedSet(want.allowedIPs)
      {
        var i :| 0 <= i < |before| && before[i] == p;
        assert desired[i] == p;
      }
    }
  }

  /**
   When the reconciler converges: for peers with distinct keys, the incremental update leaves each with
   exactly its prefixes exactly when no prefix is wanted twice.
   */
  lemma ConvergenceExact(d: Device, current: map<Key, Peer>, desired: seq<Peer>, diff: Diff)
    requires ValidDevice(d) && Reads(d, current) && DistinctKeys(desired)
    requires IsDiff(diff, current, desired)
    ensures (forall j | 0 <= j < |desired| ::
               Settled(Configure(d, DiffConfigs(diff)), desired[j], Merge(d, desired[j]))) <==>
            DisjointPrefixes(desired)
  {
    if DisjointPrefixes(desired) {
      DiffReachesTarget(d, current, desired, diff);
      TargetFacts(d, desired);
    } else if forall j | 0 <= j < |desired| ::
        Settled(Configure(d, DiffConfigs(diff)), desired[j], Merge(d, desired[j])) {
      var now := Configure(d, DiffConfigs(diff));
      forall i, j | 0 <= i < j < |desired|
        ensures MaskedSet(desired[i].allowedIPs) !! MaskedSet(desired[j].allowedIPs)
      {
        assert Settled(now, desired[i], Merge(d, desired[i])) && Settled(now, desired[j], Merge(d, desired[j]));
      }
    }
  }

  // ---------- the fixpoint ----------

  lemma {:induction false} TargetIdempotent(d: Device, desired: seq<Peer>)
    requires ValidDevice(d) && Installable(desired)
    ensures Target(Target(d, desired), desired) == Target(d, desired)
  {
    var t := Target(d, desired);
    TargetFacts(d, desired);
    TargetFacts(t, desired);
    var states := seq(|desired|, j requires 0 <= j < |desired| => Merge(d, desired[j]));
    forall j | 0 <= j < |desired|
      ensures Settled(Target(t, desired), desired[j], states[j])
    {
      assert Settled(t, desired[j], Merge(d, desired[j]));
      assert Settled(Target(t, desired), desired[j], Merge(t, desired[j]));
    }
    SettledUnique(Target(t, desired), t, desired, states);
  }

  lemma {:induction false} DiffMembers(current: map<Key, Peer>, desired: seq<Peer>, want: Peer)
    ensures want in AddedOf(current, desired) <==> want in desired && want.publicKey !in current
    ensures want in UpdatedOf(current, desired) <==> want in desired && Changed(current, want)
  {
    if desired != [] {
      var n := |desired| - 1;
      assert desired == desired[..n] + [desired[n]];
      DiffMembers(current, desired[..n], want);
    }
  }

  /**
   The kernel can hold `want` just as written: it states an endpoint or the kernel knows none, its
   keepalive is whole 16-bit seconds or off with the kernel's off too, and its prefixes are masked
   and listed once.
   */
  ghost predicate Representable(d: Device, want: Peer) {
    && (want.endpoint.None? ==> StateOf(d, want.publicKey).endpoint.None?)
    && (if want.keepalive > 0 then want.keepalive % SECOND == 0 && want.keepalive / SECOND < 65536
        else StateOf(d, want.publicKey).keepalive == 0)
    && NoDuplicates(want.allowedIPs)
    && forall p <- want.allowedIPs :: Masked(p) == p
  }

  lemma SameIffRepresentable(d: Device, now: Device, current: map<Key, Peer>, want: Peer)
    requires ValidDevice(now) && Reads(now, current) && Settled(now, want, Merge(d, want))
    ensures SamePeer(current[want.publicKey], want) <==> Representable(d, want)
  {
    var have := current[want.publicKey];
    assert Elements(have.allowedIPs) == MaskedSet(want.allowedIPs);
    if NoDuplicates(want.allowedIPs) && forall p <- want.allowedIPs :: Masked(p) == p {
      assert Elements(have.allowedIPs) == Elements(want.allowedIPs) by {
        forall p | p in want.allowedIPs
          ensures p in MaskedSet(want.allowedIPs)
        {
          assert Masked(p) == p;
        }
      }
      forall p
        ensures multiset(have.allowedIPs)[p] == multiset(want.allowedIPs)[p]
      {
        CountOnce(have.allowedIPs, p);
        CountOnce(want.allowedIPs, p);
        assert p in Elements(have.allowedIPs) <==> p in Elements(want.allowedIPs);
      }
      assert multiset(have.allowedIPs) == multiset(want.allowedIPs);
    }
    if multiset(have.allowedIPs) == multiset(want.allowedIPs) {
      RearrangementFacts(have.allowedIPs, want.allowedIPs);
      forall p | p in want.allowedIPs
        ensures Masked(p) == p
      {
        assert p in Elements(want.allowedIPs);
      }
    }
  }

  /**
   Reconcile fixpoint: a second pass adds and removes nothing, and updates exactly the peers the
   kernel could not hold as written.
   */
  lemma SecondDiff(d: Device, desired: seq<Peer>, current: map<Key, Peer>, diff: Diff)
    requires ValidDevice(d) && Installable(desired)
    requires Reads(Target(d, desired), current) && IsDiff(diff, current, desired)
    ensures diff.added == [] && diff.removed == []
    ensures forall want :: want in diff.updated <==> want in desired && !Representable(d, want)
    ensures Configure(Target(d, desired), DiffConfigs(diff)) == Target(d, desired)
  {
    var t := Target(d, desired);
    TargetFacts(d, desired);
    forall want
      ensures want !in diff.added
    {
      DiffMembers(current, desired, want);
    }
    EmptyElements(diff.added);
    EmptyElements(diff.removed);
    forall want
      ensures want in diff.updated <==> want in desired && !Representable(d, want)
    {
      DiffMembers(current, desired, want);
      if want in desired {
        var j :| 0 <= j < |desired| && desired[j] == want;
        assert Settled(t, desired[j], Merge(d, desired[j]));
        SameIffRepresentable(d, t, current, want);
      }
    }
    DiffReachesTarget(t, current, desired, diff);
    TargetIdempotent(d, desired);
  }

  /** What the kernel cannot hold as written stays so: such a peer is updated on every later pass as well. */
  lemma NeverSettles(d: Device, desired: seq<Peer>, want: Peer)
    requires ValidDevice(d) && Installable(desired) && want in desired
    ensures Representable(Target(d, desired), want) <==> Representable(d, want)
  {
    TargetFacts(d, desired);
    var j :| 0 <= j < |desired| && desired[j] == want;
    assert Settled(Target(d, desired), desired[j], Merge(d, desired[j]));
  }

  /**
   A hub states no endpoint for its spokes.  Once the kernel has learned one from a handshake, every
   pass lists that spoke as updated again, although nothing changes.
   */
  lemma LearnedEndpointIsRewritten(d: Device, desired: seq<Peer>, want: Peer, current: map<Key, Peer>, diff: Diff)
    requires ValidDevice(d) && Installable(desired) && want in desired
    requires want.endpoint.None? && StateOf(d, want.publicKey).endpoint.Some?
    requires Reads(Target(d, desired), current) && IsDiff(diff, current, desired)
    ensures want in diff.updated && Configure(Target(d, desired), DiffConfigs(diff)) == Target(d, desired)
  {
    SecondDiff(d, desired, current, diff);
  }

  /** A concrete device and peer for which it happens. */
  lemma LearnedEndpointExample(current: map<Key, Peer>, diff: Diff)
    requires var d := Device(map[Key(1) := PeerState(Some(UdpAddr(7, 51820)), 0)], map[]);
             var spoke := Peer("spoke", Key(1), None, [Host(5)], 0);
             Reads(Target(d, [spoke]), current) && IsDiff(diff, current, [spoke])
    ensures !EmptyDiff(diff)
  {
    var d := Device(map[Key(1) := PeerState(Some(UdpAddr(7, 51820)), 0)], map[]);
    var spoke := Peer("spoke", Key(1), None, [Host(5)], 0);
    LearnedEndpointIsRewritten(d, [spoke], spoke, current, diff);
  }

  // ---------- the interface ----------

  lemma {:induction false} ConfigureKeepsValid(d: Device, cs: seq<PeerConfig>)
    requires ValidDevice(d)
    ensures ValidDevice(Configure(d, cs))
  {
    if cs != [] {
      var n := |cs| - 1;
      ConfigureKeepsValid(d, cs[..n]);
      var now, c := Configure(d, cs[..n]), cs[n];
      var base := if c.replaceAllowedIPs then DropOwned(now.allowed, c.publicKey) else now.allowed;
      AssignFacts(base, c.allowedIPs, c.publicKey);
      forall p | p in MaskedSet(c.allowedIPs)
        ensures Masked(p) == p
      {
        var q :| q in c.allowedIPs && p == Masked(q);
        MaskedFacts(q, 0);
      }
    }
  }

  /**
   What a ConfigureDevice call that fails may have done of its entries: some of them in order, of the
   last one perhaps only some of the AllowedIPs.
   */
  ghost predicate LeadingPart(part: seq<PeerConfig>, cfg: seq<PeerConfig>) {
    && |part| <= |cfg|
    && (forall i | 0 <= i < |part| - 1 :: part[i] == cfg[i])
    && (part != [] ==> CutShort(part[|part| - 1], cfg[|part| - 1]))
  }

  ghost predicate CutShort(c: PeerConfig, whole: PeerConfig) {
    exists m | 0 <= m <= |whole.allowedIPs| :: c == whole.(allowedIPs := whole.allowedIPs[..m])
  }

  /** An ApplyPeers call took the device from `d` to `after` by `part` of the diff against `current`. */
  ghost predicate AppliesPart(d: Device, desired: seq<Peer>, after: Device, current: map<Key, Peer>, diff: Diff,
                              part: seq<PeerConfig>)
  {
    && Reads(d, current) && IsDiff(diff, current, desired)
    && LeadingPart(part, DiffConfigs(diff)) && after == Configure(d, part)
  }

  /** A call from `d` to `after`: the whole diff if it succeeded, else a leading part of it or nothing. */
  ghost predicate Applies(d: Device, desired: seq<Peer>, after: Device, ok: bool) {
    || (!ok && after == d)
    || exists current, diff, part ::
         AppliesPart(d, desired, after, current, diff, part) && (ok ==> part == DiffConfigs(diff))
  }

  /** What success means, and that any call leaves a valid device. */
  lemma AppliesFacts(d: Device, desired: seq<Peer>, after: Device, ok: bool)
    requires ValidDevice(d) && Applies(d, desired, after, ok)
    ensures ValidDevice(after)
    ensures ok && Installable(desired) ==> after == Target(d, desired)
  {
    if ok || after != d {
      var current, diff, part :|
        AppliesPart(d, desired, after, current, diff, part) && (ok ==> part == DiffConfigs(diff));
      ConfigureKeepsValid(d, part);
      if ok && Installable(desired) {
        DiffReachesTarget(d, current, desired, diff);
      }
    }
  }

  lemma WholeIsLeading(cfg: seq<PeerConfig>)
    ensures LeadingPart(cfg, cfg)
  {
    if cfg != [] {
      var c := cfg[|cfg| - 1];
      assert c.allowedIPs[..|c.allowedIPs|] == c.allowedIPs;
    }
  }

  /** The entries of one ConfigureDevice call: additions, updates, removals. */
  method ToConfigs(diff: Diff) returns (cfg: seq<PeerConfig>)
    ensures cfg == DiffConfigs(diff)
  {
    cfg := [];
    for i := 0 to |diff.added|
      invariant cfg == PeerConfigs(diff.added[..i], false)
    {
      cfg := cfg + [PeerToConfig(diff.added[i], false)];
    }
    assert diff.added[..|diff.added|] == diff.added;
    for i := 0 to |diff.updated|
      invariant cfg == PeerConfigs(diff.added, false) + PeerConfigs(diff.updated[..i], true)
    {
      cfg := cfg + [PeerToConfig(diff.updated[i], true)];
    }
    assert diff.updated[..|diff.updated|] == diff.updated;
    for i := 0 to |diff.removed|
      invariant cfg == PeerConfigs(diff.added, false) + PeerConfigs(diff.updated, true) +
                       RemoveConfigs(diff.removed[..i])
    {
      cfg := cfg + [RemoveConfig(diff.removed[i])];
    }
    assert diff.removed[..|diff.removed|] == diff.removed;
  }

  /** One kernel WireGuard interface, as `linuxIface` drives it. */
  class Interface {
    var dev: Device

    constructor (d: Device)
      ensures dev == d
    {
      dev := d;
    }

    /** Reading one peer back; the kernel lists its prefixes in an order of its own. */
    method ReadPeer(k: Key) returns (p: Peer)
      requires k in dev.peers
      ensures p.publicKey == k && p.endpoint == dev.peers[k].endpoint && p.keepalive == dev.peers[k].keepalive * SECOND
      ensures NoDuplicates(p.allowedIPs) && Elements(p.allowedIPs) == Owned(dev.allowed, k)
    {
      p := Peer("", k, dev.peers[k].endpoint, [], dev.peers[k].keepalive * SECOND);
      var todo := Owned(dev.allowed, k);
      while todo != {}
        invariant p.publicKey == k && p.endpoint == dev.peers[k].endpoint
        invariant p.keepalive == dev.peers[k].keepalive * SECOND
        invariant NoDuplicates(p.allowedIPs) && todo <= Owned(dev.allowed, k)
        invariant Elements(p.allowedIPs) == Owned(dev.allowed, k) - todo
        decreases todo
      {
        var q :| q in todo;
        assert q !in Elements(p.allowedIPs);
        assert Elements(p.allowedIPs + [q]) == Elements(p.allowedIPs) + {q};
        p := p.(allowedIPs := p.allowedIPs + [q]);
        todo := todo - {q};
      }
    }

    method Read() returns (current: map<Key, Peer>)
      ensures Reads(dev, current)
    {
      current := map[];
      var todo := dev.peers.Keys;
      while todo != {}
        invariant todo <= dev.peers.Keys && current.Keys == dev.peers.Keys - todo
        invariant forall k <- current ::
                    && current[k].publicKey == k
                    && current[k].endpoint == dev.peers[k].endpoint
                    && current[k].keepalive == dev.peers[k].keepalive * SECOND
                    && NoDuplicates(current[k].allowedIPs)
                    && Elements(current[k].allowedIPs) == Owned(dev.allowed, k)
        decreases todo
      {
        var k :| k in todo;
        var p := ReadPeer(k);
        current := current[k := p];
        todo := todo - {k};
      }
    }

    /** A ConfigureDevice call that fails part of the way. */
    method Interrupted(cfg: seq<PeerConfig>) returns (ghost part: seq<PeerConfig>)
      requires ValidDevice(dev)
      modifies this
      ensures LeadingPart(part, cfg) && dev == Configure(old(dev), part)
    {
      var k :| 0 <= k <= |cfg|;
      if k == 0 {
        return [];
      }
      var ips := cfg[k - 1].allowedIPs;
      var m :| 0 <= m <= |ips|;
      var done := cfg[..k - 1] + [cfg[k - 1].(allowedIPs := ips[..m])];
      dev := Configure(dev, done);
      return done;
    }

    /** `ApplyPeers`: it may fail, unless the kernel `works`, when it reads or configures the device. */
    method ApplyPeers(desired: seq<Peer>, works: bool) returns (diff: Diff, ok: bool)
      requires ValidDevice(dev)
      modifies this
      ensures works ==> ok
      ensures ValidDevice(dev) && Applies(old(dev), desired, dev, ok)
      ensures ok ==> exists current :: Reads(old(dev), current) && IsDiff(diff, current, desired)
      ensures ok && Installable(desired) ==> dev == Target(old(dev), desired)
      ensures EmptyDiff(diff) ==> dev == old(dev)
    {
      var readable: bool := *;
      if !works && !readable {
        return Diff([], [], []), false;
      }
      var current := Read();
      diff := ComputeDiff(current, desired);
      ghost var part := DiffConfigs(diff);
      WholeIsLeading(part);
      if EmptyDiff(diff) {
        assert part == [];
        ok := true;
      } else {
        var cfg := ToConfigs(diff);
        ok := *;
        ok := ok || works;
        if ok {
          dev := Configure(dev, cfg);
        } else {
          part := Interrupted(cfg);
        }
      }
      assert AppliesPart(old(dev), desired, dev, current, diff, part);
      AppliesFacts(old(dev), desired, dev, ok);
    }
  }
}
