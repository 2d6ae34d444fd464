/**
 The ACL compiler: group rules expand to sorted, deduplicated address pairs, which
 become a first-match chain.  The chain means what the document declares.
 */
module Netpolicy {
  import opened Net
  import opened Sequences
  import opened Spec

  datatype Rule = Rule(source: Addr, dest: Addr, allow: bool)

  datatype Compiled = Compiled(allows: seq<Rule>, denies: seq<Rule>, hubIPs: seq<Addr>, overlay: Prefix)

  datatype CompileError = BadOverlay | BadAgentIP(agent: string) | BadHubIP(hub: string)

  type Pair = (Addr, Addr)

  // ---------- what the document declares ----------

  /** The addresses of the agents in group `g`. */
  ghost function MemberSet(lib: Lib, agents: seq<Agent>, g: string): (r: set<Addr>) {
    set a | a in agents && g in a.groups && lib.parseAddr(a.tunnelIP).Some? :: lib.parseAddr(a.tunnelIP).value
  }

  /** The addresses of the agents in some group of `gs`. */
  ghost function MembersOf(lib: Lib, agents: seq<Agent>, gs: seq<string>): (r: set<Addr>) {
    set g, m | g in gs && m in MemberSet(lib, agents, g) :: m
  }

  /** All pairs of different addresses. */
  ghost function Pairs(sources: set<Addr>, dests: set<Addr>): (r: set<Pair>) {
    set s, t | s in sources && t in dests && s != t :: (s, t)
  }

  ghost function AclPairs(lib: Lib, agents: seq<Agent>, r: Acl): (p: set<Pair>) {
    Pairs(MembersOf(lib, agents, r.from), MembersOf(lib, agents, r.to))
  }

  /** Some rule with this effect covers the pair; any action but "allow" denies. */
  ghost predicate Covered(lib: Lib, agents: seq<Agent>, acls: seq<Acl>, allow: bool, p: Pair) {
    exists r <- acls :: (r.action == ACTION_ALLOW) == allow && p in AclPairs(lib, agents, r)
  }

  predicate RuleLess(a: Rule, b: Rule) {
    a.source < b.source || (a.source == b.source && a.dest < b.dest)
  }

  predicate AddrLess(a: Addr, b: Addr) {
    a < b
  }

  /** `rules` lists exactly the pairs of `pairs`, in order, each once. */
  ghost predicate Lists(rules: seq<Rule>, allow: bool, pairs: iset<Pair>) {
    && Sorted(rules, RuleLess) && NoDuplicates(rules)
    && (forall r <- rules :: r.allow == allow && (r.source, r.dest) in pairs)
    && (forall p <- pairs :: Rule(p.0, p.1, allow) in rules)
  }

  ghost function CoveredPairs(lib: Lib, d: Document, allow: bool): (r: iset<Pair>) {
    iset p: Pair | Covered(lib, d.spec.agents, d.spec.acls, allow, p)
  }

  /** The hub addresses in declaration order. */
  ghost function HubList(lib: Lib, hubs: seq<Hub>): (r: seq<Addr>)
    ensures |r| == |hubs|
  {
    seq(|hubs|, i requires 0 <= i < |hubs| => ParsedAddr(lib, hubs[i].tunnelIP))
  }

  ghost predicate Parses(lib: Lib, d: Document) {
    && lib.parsePrefix(d.spec.cidr).Some?
    && (forall a <- d.spec.agents :: lib.parseAddr(a.tunnelIP).Some?)
    && (forall h <- d.spec.hubs :: lib.parseAddr(h.tunnelIP).Some?)
  }

  /** A validated document always compiles. */
  lemma WellFormedParses(lib: Lib, d: Document)
    requires WellFormed(lib, d)
    ensures Parses(lib, d)
  {
    var hubs, agents := d.spec.hubs, d.spec.agents;
    var raws := NodeIPs(hubs, agents);
    forall h | h in hubs
      ensures lib.parseAddr(h.tunnelIP).Some?
    {
      var i :| 0 <= i < |hubs| && hubs[i] == h;
      assert raws[i] in raws;
    }
    forall a | a in agents
      ensures lib.parseAddr(a.tunnelIP).Some?
    {
      var i :| 0 <= i < |agents| && agents[i] == a;
      assert raws[|hubs| + i] in raws;
    }
  }

  /** What compilation must produce. */
  ghost predicate IsCompiled(lib: Lib, d: Document, c: Compiled) {
    && lib.parsePrefix(d.spec.cidr) == Some(c.overlay)
    && Lists(c.allows, true, CoveredPairs(lib, d, true))
    && Lists(c.denies, false, CoveredPairs(lib, d, false))
    && Sorted(c.hubIPs, AddrLess) && multiset(c.hubIPs) == multiset(HubList(lib, d.spec.hubs))
  }

  // ---------- the compiler ----------

  function ListFor<V>(m: map<string, seq<V>>, g: string): (r: seq<V>) {
    if g in m then m[g] else []
  }

  method AddToGroups(members: map<string, seq<Addr>>, groups: seq<string>, ip: Addr)
    returns (out: map<string, seq<Addr>>)
    ensures forall g :: Elements(ListFor(out, g)) == Elements(ListFor(members, g)) + if g in groups then {ip} else {}
  {
    out := members;
    for i := 0 to |groups|
      invariant forall g ::
                  Elements(ListFor(out, g)) == Elements(ListFor(members, g)) + if g in groups[..i] then {ip} else {}
    {
      assert groups[..i + 1] == groups[..i] + [groups[i]];
      ghost var before := out;
      out := out[groups[i] := ListFor(out, groups[i]) + [ip]];
      assert Elements(ListFor(before, groups[i]) + [ip]) == Elements(ListFor(before, groups[i])) + {ip};
    }
    assert groups[..|groups|] == groups;
  }

  method GroupMembers(lib: Lib, agents: seq<Agent>) returns (r: Result<map<string, seq<Addr>>, CompileError>)
    ensures r.Ok? <==> forall a <- agents :: lib.parseAddr(a.tunnelIP).Some?
    ensures r.Ok? ==> forall g :: Elements(ListFor(r.value, g)) == MemberSet(lib, agents, g)
  {
    var members: map<string, seq<Addr>> := map[];
    for i := 0 to |agents|
      invariant forall a <- agents[..i] :: lib.parseAddr(a.tunnelIP).Some?
      invariant forall g :: Elements(ListFor(members, g)) == MemberSet(lib, agents[..i], g)
    {
      var a := agents[i];
      assert agents[..i + 1] == agents[..i] + [a];
      var ip := lib.parseAddr(a.tunnelIP);
      if ip.None? {
        return Err(BadAgentIP(a.name));
      }
      members := AddToGroups(members, a.groups, ip.value);
      forall g
        ensures MemberSet(lib, agents[..i + 1], g) ==
                MemberSet(lib, agents[..i], g) + if g in a.groups then {ip.value} else {}
      {
      }
    }
    assert agents[..|agents|] == agents;
    return Ok(members);
  }

  /** A growing rule list and the set of pairs it already has. */
  datatype Expansion = Expansion(seen: set<Pair>, rules: seq<Rule>)

  ghost predicate Tracks(x: Expansion, allow: bool) {
    && NoDuplicates(x.rules)
    && forall r :: r in x.rules <==> r.allow == allow && (r.source, r.dest) in x.seen
  }

  method ExpandGroups(srcs: seq<Addr>, dsts: seq<Addr>, allow: bool, start: Expansion) returns (x: Expansion)
    requires Tracks(start, allow)
    ensures Tracks(x, allow) && x.seen == start.seen + Pairs(Elements(srcs), Elements(dsts))
  {
    x := start;
    for i := 0 to |srcs|
      invariant Tracks(x, allow) && x.seen == start.seen + Pairs(Elements(srcs[..i]), Elements(dsts))
    {
      var src := srcs[i];
      assert srcs[..i + 1] == srcs[..i] + [src];
      ghost var before := x.seen;
      for j := 0 to |dsts|
        invariant Tracks(x, allow) && x.seen == before + Pairs({src}, Elements(dsts[..j]))
      {
        var dst := dsts[j];
        assert dsts[..j + 1] == dsts[..j] + [dst];
        if src == dst {
          continue;
        }
        if (src, dst) in x.seen {
          continue;
        }
        assert Rule(src, dst, allow) !in x.rules;
        x := Expansion(x.seen + {(src, dst)}, x.rules + [Rule(src, dst, allow)]);
      }
      assert dsts[..|dsts|] == dsts;
      assert Elements(srcs[..i + 1]) == Elements(srcs[..i]) + {src};
    }
    assert srcs[..|srcs|] == srcs;
  }

  method ExpandAcl(members: map<string, seq<Addr>>, r: Acl, start: Expansion, ghost lib: Lib, ghost agents: seq<Agent>)
    returns (x: Expansion)
    requires Tracks(start, r.action == ACTION_ALLOW)
    requires forall g :: Elements(ListFor(members, g)) == MemberSet(lib, agents, g)
    ensures Tracks(x, r.action == ACTION_ALLOW) && x.seen == start.seen + AclPairs(lib, agents, r)
  {
    x := start;
    ghost var tos := MembersOf(lib, agents, r.to);
    for i := 0 to |r.from|
      invariant Tracks(x, r.action == ACTION_ALLOW)
      invariant x.seen == start.seen + Pairs(MembersOf(lib, agents, r.from[..i]), tos)
    {
      ghost var before := x.seen;
      ghost var froms := MemberSet(lib, agents, r.from[i]);
      for j := 0 to |r.to|
        invariant Tracks(x, r.action == ACTION_ALLOW)
        invariant x.seen == before + Pairs(froms, MembersOf(lib, agents, r.to[..j]))
      {
        MembersOfSnoc(lib, agents, r.to, j);
        x := ExpandGroups(ListFor(members, r.from[i]), ListFor(members, r.to[j]), r.action == ACTION_ALLOW, x);
        PairsUnion(froms, {}, MembersOf(lib, agents, r.to[..j]), MemberSet(lib, agents, r.to[j]));
      }
      assert r.to[..|r.to|] == r.to;
      MembersOfSnoc(lib, agents, r.from, i);
      PairsUnion(MembersOf(lib, agents, r.from[..i]), froms, tos, {});
    }
    assert r.from[..|r.from|] == r.from;
  }

  lemma MembersOfSnoc(lib: Lib, agents: seq<Agent>, gs: seq<string>, i: nat)
    requires i < |gs|
    ensures MembersOf(lib, agents, gs[..i + 1]) == MembersOf(lib, agents, gs[..i]) + MemberSet(lib, agents, gs[i])
  {
    assert gs[..i + 1] == gs[..i] + [gs[i]];
  }

  lemma PairsUnion(a: set<Addr>, a': set<Addr>, b: set<Addr>, b': set<Addr>)
    ensures Pairs(a + a', b) == Pairs(a, b) + Pairs(a', b)
    ensures Pairs(a, b + b') == Pairs(a, b) + Pairs(a, b')
  {
  }

  method CollectHubIPs(lib: Lib, hubs: seq<Hub>) returns (r: Result<seq<Addr>, CompileError>)
    ensures r.Ok? <==> forall h <- hubs :: lib.parseAddr(h.tunnelIP).Some?
    ensures r.Ok? ==> r.value == HubList(lib, hubs)
  {
    var ips := [];
    for i := 0 to |hubs|
      invariant forall h <- hubs[..i] :: lib.parseAddr(h.tunnelIP).Some?
      invariant ips == HubList(lib, hubs[..i])
    {
      var h := hubs[i];
      assert hubs[..i + 1] == hubs[..i] + [h];
      var ip := lib.parseAddr(h.tunnelIP);
      if ip.None? {
        return Err(BadHubIP(h.name));
      }
      ips := ips + [ip.value];
    }
    assert hubs[..|hubs|] == hubs;
    return Ok(ips);
  }

  ghost predicate Expands(lib: Lib, agents: seq<Agent>, acls: seq<Acl>, allow: bool, x: Expansion) {
    Tracks(x, allow) && forall p :: p in x.seen <==> Covered(lib, agents, acls, allow, p)
  }

  lemma ExpandsSnoc(lib: Lib, agents: seq<Agent>, acls: seq<Acl>, i: nat, allow: bool, x: Expansion, x': Expansion)
    requires i < |acls| && Expands(lib, agents, acls[..i], allow, x) && Tracks(x', allow)
    requires x'.seen ==
             x.seen + if (acls[i].action == ACTION_ALLOW) == allow then AclPairs(lib, agents, acls[i]) else {}
    ensures Expands(lib, agents, acls[..i + 1], allow, x')
  {
    assert acls[..i + 1] == acls[..i] + [acls[i]];
  }

  /** `sortRules` on the rules of one expansion gives the canonical list of its pairs. */
  method SortRules(x: Expansion, allow: bool) returns (rules: seq<Rule>)
    requires Tracks(x, allow)
    ensures Lists(rules, allow, iset p | p in x.seen)
  {
    rules := Sort(x.rules, RuleLess);
    RearrangementFacts(x.rules, rules);
    forall p: Pair | p in x.seen
      ensures Rule(p.0, p.1, allow) in rules
    {
      assert Rule(p.0, p.1, allow) in Elements(x.rules);
    }
    forall r | r in rules
      ensures r in x.rules
    {
      assert r in Elements(rules);
    }
  }

  method ExpandAcls(ghost lib: Lib, ghost agents: seq<Agent>, members: map<string, seq<Addr>>, acls: seq<Acl>)
    returns (allows: Expansion, denies: Expansion)
    requires forall g :: Elements(ListFor(members, g)) == MemberSet(lib, agents, g)
    ensures Expands(lib, agents, acls, true, allows) && Expands(lib, agents, acls, false, denies)
  {
    allows, denies := Expansion({}, []), Expansion({}, []);
    for i := 0 to |acls|
      invariant Expands(lib, agents, acls[..i], true, allows)
      invariant Expands(lib, agents, acls[..i], false, denies)
    {
      ghost var allows0, denies0 := allows, denies;
      if acls[i].action == ACTION_ALLOW {
        allows := ExpandAcl(members, acls[i], allows, lib, agents);
      } else {
        denies := ExpandAcl(members, acls[i], denies, lib, agents);
      }
      ExpandsSnoc(lib, agents, acls, i, true, allows0, allows);
      ExpandsSnoc(lib, agents, acls, i, false, denies0, denies);
    }
    assert acls[..|acls|] == acls;
  }

  /** Ascending by source address, then by destination address, without repetition. */
  ghost predicate BySourceThenDest(rules: seq<Rule>) {
    forall i, j | 0 <= i < j < |rules| ::
      rules[i].source < rules[j].source || (rules[i].source == rules[j].source && rules[i].dest < rules[j].dest)
  }

  method Compile(lib: Lib, d: Document) returns (r: Result<Compiled, CompileError>)
    ensures r.Ok? <==> Parses(lib, d)
    ensures r.Ok? ==> IsCompiled(lib, d, r.value)
    ensures r.Ok? ==> BySourceThenDest(r.value.allows) && BySourceThenDest(r.value.denies)
    ensures r.Ok? ==> forall x <- r.value.allows + r.value.denies :: x.source != x.dest
    ensures r.Ok? ==> forall i, j | 0 <= i < j < |r.value.hubIPs| :: r.value.hubIPs[i] <= r.value.hubIPs[j]
  {
    var overlay := lib.parsePrefix(d.spec.cidr);
    if overlay.None? {
      return Err(BadOverlay);
    }
    var agents, acls := d.spec.agents, d.spec.acls;
    var members := GroupMembers(lib, agents);
    if members.Err? {
      return Err(members.error);
    }
    var allows, denies := ExpandAcls(lib, agents, members.value, acls);
    var allowRules := SortRules(allows, true);
    var denyRules := SortRules(denies, false);
    var hubs := CollectHubIPs(lib, d.spec.hubs);
    if hubs.Err? {
      return Err(hubs.error);
    }
    var hubIPs := Sort(hubs.value, AddrLess);
    assert CoveredPairs(lib, d, true) == iset p | p in allows.seen;
    assert CoveredPairs(lib, d, false) == iset p | p in denies.seen;
    return Ok(Compiled(allowRules, denyRules, hubIPs, overlay.value));
  }

  // ---------- the chain ----------

  datatype Packet = Packet(src: Addr, dst: Addr)

  datatype Ruling = Accept | Drop | Return

  /** One iptables rule of the custom chain; an absent match matches everything. */
  datatype ChainRule = ChainRule(src: Option<Prefix>, dst: Option<Prefix>, target: Ruling)

  predicate Matches(r: ChainRule, p: Packet) {
    && (r.src.Some? ==> Contains(r.src.value, p.src))
    && (r.dst.Some? ==> Contains(r.dst.value, p.dst))
  }

  /** First match wins; an exhausted chain has no verdict and traffic goes on in FORWARD. */
  function Verdict(chain: seq<ChainRule>, p: Packet): (r: Option<Ruling>) {
    if chain == [] then None
    else if Matches(chain[0], p) then Some(chain[0].target)
    else Verdict(chain[1..], p)
  }

  function HubRules(hubs: seq<Addr>): (r: seq<ChainRule>) {
    if hubs == [] then []
    else HubRules(hubs[..|hubs| - 1]) +
         [ChainRule(Some(Host(hubs[|hubs| - 1])), None, Accept), ChainRule(None, Some(Host(hubs[|hubs| - 1])), Accept)]
  }

  function PairRules(rules: seq<Rule>, target: Ruling): (r: seq<ChainRule>)
    ensures |r| == |rules|
  {
    seq(|rules|, i requires 0 <= i < |rules| =>
      ChainRule(Some(Host(rules[i].source)), Some(Host(rules[i].dest)), target))
  }

  function DefaultRules(overlay: Prefix): (r: seq<ChainRule>) {
    [ChainRule(Some(overlay), Some(overlay), Drop), ChainRule(None, None, Return)]
  }

  function Chain(c: Compiled): (r: seq<ChainRule>) {
    HubRules(c.hubIPs) + PairRules(c.denies, Drop) + PairRules(c.allows, Accept) + DefaultRules(c.overlay)
  }

  /** `buildRules`: hubs, denies, allows, default deny, safety net. */
  method BuildRules(c: Compiled) returns (rules: seq<ChainRule>)
    ensures rules == Chain(c)
  {
    rules := [];
    for i := 0 to |c.hubIPs|
      invariant rules == HubRules(c.hubIPs[..i])
    {
      assert c.hubIPs[..i + 1][..i] == c.hubIPs[..i];
      rules := rules + [ChainRule(Some(Host(c.hubIPs[i])), None, Accept)];
      rules := rules + [ChainRule(None, Some(Host(c.hubIPs[i])), Accept)];
    }
    assert c.hubIPs[..|c.hubIPs|] == c.hubIPs;
    ghost var hubs := rules;
    for i := 0 to |c.denies|
      invariant rules == hubs + PairRules(c.denies[..i], Drop)
    {
      rules := rules + [ChainRule(Some(Host(c.denies[i].source)), Some(Host(c.denies[i].dest)), Drop)];
    }
    assert c.denies[..|c.denies|] == c.denies;
    for i := 0 to |c.allows|
      invariant rules == hubs + PairRules(c.denies, Drop) + PairRules(c.allows[..i], Accept)
    {
      rules := rules + [ChainRule(Some(Host(c.allows[i].source)), Some(Host(c.allows[i].dest)), Accept)];
    }
    assert c.allows[..|c.allows|] == c.allows;
    rules := rules + [ChainRule(Some(c.overlay), Some(c.overlay), Drop), ChainRule(None, None, Return)];
  }

  lemma {:induction false} VerdictConcat(a: seq<ChainRule>, b: seq<ChainRule>, p: Packet)
    ensures Verdict(a + b, p) == if Verdict(a, p).Some? then Verdict(a, p) else Verdict(b, p)
  {
    if a == [] {
      assert a + b == b;
    } else {
      assert (a + b)[1..] == a[1..] + b;
      VerdictConcat(a[1..], b, p);
    }
  }

  lemma {:induction false} HubVerdict(hubs: seq<Addr>, p: Packet)
    ensures Verdict(HubRules(hubs), p) == if p.src in hubs || p.dst in hubs then Some(Accept) else None
  {
    if hubs != [] {
      var n := |hubs| - 1;
      assert hubs == hubs[..n] + [hubs[n]];
      HubVerdict(hubs[..n], p);
      var last := [ChainRule(Some(Host(hubs[n])), None, Accept), ChainRule(None, Some(Host(hubs[n])), Accept)];
      VerdictConcat(HubRules(hubs[..n]), last, p);
      HostFacts(hubs[n], p.src);
      HostFacts(hubs[n], p.dst);
      assert last[1..] == [last[1]] && [last[1]][1..] == [];
      assert Verdict([last[1]], p) == if p.dst == hubs[n] then Some(Accept) else None;
    }
  }

  lemma {:induction false} PairVerdict(rules: seq<Rule>, target: Ruling, allow: bool, p: Packet)
    requires forall r <- rules :: r.allow == allow
    ensures Verdict(PairRules(rules, target), p) == if Rule(p.src, p.dst, allow) in rules then Some(target) else None
  {
    if rules != [] {
      HostFacts(rules[0].source, p.src);
      HostFacts(rules[0].dest, p.dst);
      assert PairRules(rules, target)[1..] == PairRules(rules[1..], target);
      assert rules == [rules[0]] + rules[1..];
      PairVerdict(rules[1..], target, allow, p);
    }
  }

  /** The policy as the document states it, without reference to any rule order. */
  ghost function DeclaredVerdict(lib: Lib, d: Document, overlay: Prefix, p: Packet): (r: Ruling) {
    if p.src in HubList(lib, d.spec.hubs) || p.dst in HubList(lib, d.spec.hubs) then Accept
    else if Covered(lib, d.spec.agents, d.spec.acls, false, (p.src, p.dst)) then Drop
    else if Covered(lib, d.spec.agents, d.spec.acls, true, (p.src, p.dst)) then Accept
    else if Contains(overlay, p.src) && Contains(overlay, p.dst) then Drop
    else Return
  }

  /** Compiler correctness: the chain decides every packet as the document declares. */
  lemma ChainMeaning(lib: Lib, d: Document, c: Compiled, p: Packet)
    requires IsCompiled(lib, d, c)
    ensures Verdict(Chain(c), p) == Some(DeclaredVerdict(lib, d, c.overlay, p))
    ensures Contains(c.overlay, p.src) && Contains(c.overlay, p.dst) ==> Verdict(Chain(c), p) != Some(Return)
  {
    var hubs, denies, allows := HubRules(c.hubIPs), PairRules(c.denies, Drop), PairRules(c.allows, Accept);
    VerdictConcat(hubs + denies + allows, DefaultRules(c.overlay), p);
    VerdictConcat(hubs + denies, allows, p);
    VerdictConcat(hubs, denies, p);
    HubVerdict(c.hubIPs, p);
    PairVerdict(c.denies, Drop, false, p);
    PairVerdict(c.allows, Accept, true, p);
    RearrangementFacts(c.hubIPs, HubList(lib, d.spec.hubs));
    assert forall a :: a in c.hubIPs <==> a in Elements(c.hubIPs);
    assert forall a :: a in HubList(lib, d.spec.hubs) <==> a in Elements(HubList(lib, d.spec.hubs));
    ListsMember(c.denies, false, CoveredPairs(lib, d, false), p);
    ListsMember(c.allows, true, CoveredPairs(lib, d, true), p);
  }

  lemma ListsMember(rules: seq<Rule>, allow: bool, pairs: iset<Pair>, p: Packet)
    requires Lists(rules, allow, pairs)
    ensures Rule(p.src, p.dst, allow) in rules <==> (p.src, p.dst) in pairs
  {
    if (p.src, p.dst) in pairs {
      var q := (p.src, p.dst);
      assert Rule(q.0, q.1, allow) in rules;
    }
  }

  /** A chain filled only part of the way may leave a packet undecided but never decides it differently. */
  lemma PartialChain(chain: seq<ChainRule>, n: nat, p: Packet)
    requires n <= |chain|
    ensures Verdict(chain[..n], p).None? || Verdict(chain[..n], p) == Verdict(chain, p)
  {
    assert chain == chain[..n] + chain[n..];
    VerdictConcat(chain[..n], chain[n..], p);
  }

  // ---------- canonical form ----------

  lemma ListsUnique(a: seq<Rule>, b: seq<Rule>, allow: bool, pairs: iset<Pair>)
    requires Lists(a, allow, pairs) && Lists(b, allow, pairs)
    ensures a == b
  {
    forall x, y: seq<Rule>, r | Lists(x, allow, pairs) && Lists(y, allow, pairs) && r in x
      ensures r in y
    {
      var p := (r.source, r.dest);
      assert p in pairs;
      assert Rule(p.0, p.1, allow) in y;
    }
    assert Elements(a) == Elements(b);
    SameElementsSameSequence(a, b, RuleLess);
  }

  lemma HubListDistinct(lib: Lib, d: Document)
    requires WellFormed(lib, d)
    ensures NoDuplicates(HubList(lib, d.spec.hubs))
    ensures forall i | 0 <= i < |d.spec.hubs| :: HubList(lib, d.spec.hubs)[i] == Address(lib, d, d.spec.hubs[i].name)
  {
    var hubs, raws := d.spec.hubs, NodeIPs(d.spec.hubs, d.spec.agents);
    forall i | 0 <= i < |hubs|
      ensures raws[i] == hubs[i].tunnelIP && lib.parseAddr(raws[i]).Some?
      ensures HubList(lib, hubs)[i] == Address(lib, d, hubs[i].name)
    {
      HubEntry(lib, d, i);
      assert raws[i] in raws;
    }
  }

  lemma SameHubs(lib: Lib, d: Document, d': Document, c: Compiled, c': Compiled)
    requires WellFormed(lib, d) && WellFormed(lib, d')
    requires IsCompiled(lib, d, c) && IsCompiled(lib, d', c')
    requires Elements(HubList(lib, d.spec.hubs)) == Elements(HubList(lib, d'.spec.hubs))
    ensures c.hubIPs == c'.hubIPs
  {
    HubListDistinct(lib, d);
    HubListDistinct(lib, d');
    RearrangementFacts(HubList(lib, d.spec.hubs), c.hubIPs);
    RearrangementFacts(HubList(lib, d'.spec.hubs), c'.hubIPs);
    SameElementsSameSequence(c.hubIPs, c'.hubIPs, AddrLess);
  }

  /**
   Canonical compilation: documents that agree on overlay, hub addresses and covered pairs compile
   to the same rule sequences, however their entries are ordered or overlap.
   */
  lemma CanonicalCompilation(lib: Lib, d: Document, d': Document, c: Compiled, c': Compiled)
    requires WellFormed(lib, d) && WellFormed(lib, d')
    requires IsCompiled(lib, d, c) && IsCompiled(lib, d', c')
    requires lib.parsePrefix(d.spec.cidr) == lib.parsePrefix(d'.spec.cidr)
    requires Elements(HubList(lib, d.spec.hubs)) == Elements(HubList(lib, d'.spec.hubs))
    requires CoveredPairs(lib, d, true) == CoveredPairs(lib, d', true)
    requires CoveredPairs(lib, d, false) == CoveredPairs(lib, d', false)
    ensures c == c' && Chain(c) == Chain(c')
  {
    ListsUnique(c.allows, c'.allows, true, CoveredPairs(lib, d, true));
    ListsUnique(c.denies, c'.denies, false, CoveredPairs(lib, d, false));
    SameHubs(lib, d, d', c, c');
  }
}
