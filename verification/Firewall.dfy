/**
 The life of the SEINE-FWD chain and of the one FORWARD rule that jumps to it, when
 every iptables call may fail and other programs edit FORWARD too.
 */
module Firewall {
  import opened Net
  import opened Netpolicy

  /** A rule of FORWARD, as its iptables arguments. */
  type ForwardRule = seq<string>

  const CHAIN_NAME := "SEINE-FWD"

  function ForwardJump(iface: string): (r: ForwardRule) {
    ["-i", iface, "-o", iface, "-j", CHAIN_NAME]
  }

  /** The part of the filter table the agent touches: FORWARD, and its own chain if it exists. */
  datatype Table = Table(forward: seq<ForwardRule>, chain: Option<seq<ChainRule>>)

  // ---------- lists with and without the jump ----------

  /** FORWARD without the jump. */
  function Others(jump: ForwardRule, f: seq<ForwardRule>): (r: seq<ForwardRule>) {
    if f == [] then []
    else if f[0] == jump then Others(jump, f[1..])
    else [f[0]] + Others(jump, f[1..])
  }

  function RemoveFirst(jump: ForwardRule, f: seq<ForwardRule>): (r: seq<ForwardRule>) {
    if f == [] then []
    else if f[0] == jump then f[1..]
    else [f[0]] + RemoveFirst(jump, f[1..])
  }

  function WithJump(jump: ForwardRule, f: seq<ForwardRule>): (r: seq<ForwardRule>) {
    if jump in f then f else [jump] + f
  }

  ghost predicate AtMostOnce(jump: ForwardRule, f: seq<ForwardRule>) {
    forall i, j | 0 <= i < j < |f| :: !(f[i] == jump && f[j] == jump)
  }

  lemma {:induction false} NoJumpFacts(jump: ForwardRule, f: seq<ForwardRule>)
    requires jump !in f
    ensures Others(jump, f) == f && RemoveFirst(jump, f) == f
  {
    if f != [] {
      NoJumpFacts(jump, f[1..]);
    }
  }

  lemma WithJumpFacts(jump: ForwardRule, f: seq<ForwardRule>)
    requires AtMostOnce(jump, f)
    ensures AtMostOnce(jump, WithJump(jump, f)) && jump in WithJump(jump, f)
    ensures Others(jump, WithJump(jump, f)) == Others(jump, f)
  {
    if jump !in f {
      assert ([jump] + f)[1..] == f;
    }
  }

  lemma {:induction false} RemoveFirstFacts(jump: ForwardRule, f: seq<ForwardRule>)
    requires AtMostOnce(jump, f)
    ensures RemoveFirst(jump, f) == Others(jump, f)
    ensures jump !in Others(jump, f) && Others(jump, Others(jump, f)) == Others(jump, f)
  {
    if f != [] {
      if f[0] == jump {
        forall i | 1 <= i < |f|
          ensures f[i] != jump
        {
        }
        NoJumpFacts(jump, f[1..]);
      } else {
        forall i, j | 0 <= i < j < |f[1..]|
          ensures !(f[1..][i] == jump && f[1..][j] == jump)
        {
          assert f[1..][i] == f[i + 1] && f[1..][j] == f[j + 1];
        }
        RemoveFirstFacts(jump, f[1..]);
        NoJumpFacts(jump, Others(jump, f[1..]));
        assert ([f[0]] + Others(jump, f[1..]))[1..] == Others(jump, f[1..]);
      }
    }
  }

  // ---------- what one call may do ----------

  /** A Reconcile that wants `rules`, from `s` to `t`; on failure it stopped after any of its calls. */
  ghost predicate Reconciles(jump: ForwardRule, rules: seq<ChainRule>, s: Table, t: Table, ok: bool) {
    if ok then
      t == Table(WithJump(jump, s.forward), Some(rules))
    else
      && (t.forward == s.forward || (t.forward == WithJump(jump, s.forward) && t.chain.Some?))
      && (t.chain == s.chain
          || (s.chain.None? && t.chain == Some([]))
          || (t.forward == WithJump(jump, s.forward) && exists n | 0 <= n <= |rules| :: t.chain == Some(rules[..n])))
  }

  /** A Teardown from `s` to `t`; `clean` when every call succeeded. */
  ghost predicate TearsDown(jump: ForwardRule, s: Table, t: Table, clean: bool) {
    && (t.forward == s.forward || t.forward == RemoveFirst(jump, s.forward))
    && (t.chain == s.chain || t.chain == Some([]) || (t.chain.None? && jump !in t.forward))
    && (t.chain.Some? ==> s.chain.Some?)
    && (clean ==> t == Table(RemoveFirst(jump, s.forward), None))
  }

  /** Some other program edits FORWARD; it may move or drop the jump, but knows nothing to add one. */
  ghost predicate Foreign(jump: ForwardRule, s: Table, t: Table) {
    t.chain == s.chain && AtMostOnce(jump, t.forward) && (jump in t.forward ==> jump in s.forward)
  }

  // ---------- the code ----------

  /** The iptables-backed firewall of one hub. */
  class Firewall {
    const iface: string
    var forward: seq<ForwardRule>
    var chain: Option<seq<ChainRule>>

    constructor (iface: string, t: Table)
      ensures this.iface == iface && State() == t
    {
      this.iface := iface;
      forward, chain := t.forward, t.chain;
    }

    ghost function State(): (t: Table)
      reads this
    {
      Table(forward, chain)
    }

    /** One iptables call: it may fail unless iptables `works`. */
    method Call(works: bool) returns (ok: bool)
      ensures works ==> ok
    {
      ok := works;
      if !works {
        ok := *;
      }
    }

    method EnsureChain(works: bool) returns (ok: bool)
      modifies `chain
      ensures works ==> ok
      ensures if ok then chain == (if old(chain).Some? then old(chain) else Some([])) else chain == old(chain)
    {
      ok := Call(works);
      if !ok || chain.Some? {
        return;
      }
      ok := Call(works);
      if ok {
        chain := Some([]);
      }
    }

    method EnsureForwardJump(works: bool) returns (ok: bool)
      requires chain.Some?
      modifies `forward
      ensures works ==> ok
      ensures forward == if ok then WithJump(ForwardJump(iface), old(forward)) else old(forward)
    {
      var jump := ForwardJump(iface);
      ok := Call(works);
      if !ok || jump in forward {
        return;
      }
      ok := Call(works);
      if ok {
        forward := [jump] + forward;
      }
    }

    /** `Reconcile`: ensure the chain, ensure the jump, flush, append one by one. */
    method Reconcile(c: Compiled, works: bool) returns (ok: bool)
      modifies this
      ensures works ==> ok
      ensures Reconciles(ForwardJump(iface), Chain(c), old(State()), State(), ok)
    {
      ok := EnsureChain(works);
      if !ok {
        return;
      }
      ok := EnsureForwardJump(works);
      if !ok {
        return;
      }
      ok := Call(works);
      if !ok {
        return;
      }
      chain := Some([]);
      var rules := BuildRules(c);
      for i := 0 to |rules|
        invariant chain == Some(rules[..i]) && forward == WithJump(ForwardJump(iface), old(forward))
      {
        ok := Call(works);
        if !ok {
          return;
        }
        assert rules[..i + 1] == rules[..i] + [rules[i]];
        chain := Some(chain.value + [rules[i]]);
      }
      assert rules[..|rules|] == rules;
      return true;
    }

    /** `Teardown`; iptables refuses to delete a chain that is referenced or not empty. */
    method Teardown(works: bool) returns (ghost clean: bool)
      modifies this
      ensures works && AtMostOnce(ForwardJump(iface), old(forward)) ==> clean
      ensures TearsDown(ForwardJump(iface), old(State()), State(), clean)
    {
      var jump := ForwardJump(iface);
      clean := true;
      var answered := Call(works);
      if !answered {
        clean := false;
      } else if jump in forward {
        var deleted := Call(works);
        if deleted {
          if AtMostOnce(jump, forward) {
            RemoveFirstFacts(jump, forward);
          }
          forward := RemoveFirst(jump, forward);
        } else {
          clean := false;
        }
      } else {
        NoJumpFacts(jump, forward);
      }
      answered := Call(works);
      if !answered {
        clean := false;
      } else if chain.Some? {
        var flushed := Call(works);
        if flushed {
          chain := Some([]);
        } else {
          clean := false;
        }
        var deleted := Call(works);
        if deleted && chain.value == [] && jump !in forward {
          chain := None;
        } else {
          clean := false;
        }
      }
    }
  }

  // ---------- whole runs ----------

  datatype Op =
    | ReconcileOp(rules: seq<ChainRule>, ok: bool)
    | TeardownOp(clean: bool)
    | ForeignOp

  ghost predicate Step(jump: ForwardRule, s: Table, op: Op, t: Table) {
    match op
    case ReconcileOp(rules, ok) => Reconciles(jump, rules, s, t, ok)
    case TeardownOp(clean) => TearsDown(jump, s, t, clean)
    case ForeignOp => Foreign(jump, s, t)
  }

  ghost predicate Run(jump: ForwardRule, states: seq<Table>, ops: seq<Op>) {
    && |states| == |ops| + 1
    && forall i | 0 <= i < |ops| :: Step(jump, states[i], ops[i], states[i + 1])
  }

  /** At most one jump, and never one to a missing chain. */
  ghost predicate Sound(jump: ForwardRule, s: Table) {
    AtMostOnce(jump, s.forward) && (jump in s.forward ==> s.chain.Some?)
  }

  lemma StepKeepsSound(jump: ForwardRule, s: Table, op: Op, t: Table)
    requires Sound(jump, s) && Step(jump, s, op, t)
    ensures Sound(jump, t)
    ensures !op.ForeignOp? ==> Others(jump, t.forward) == Others(jump, s.forward)
    ensures op.TeardownOp? && op.clean ==> t == Table(Others(jump, s.forward), None)
  {
    WithJumpFacts(jump, s.forward);
    RemoveFirstFacts(jump, s.forward);
  }

  lemma {:induction false} RunKeepsSound(jump: ForwardRule, states: seq<Table>, ops: seq<Op>, n: nat)
    requires Run(jump, states, ops) && Sound(jump, states[0]) && n <= |ops|
    ensures Sound(jump, states[n])
    ensures (forall i | 0 <= i < n :: !ops[i].ForeignOp?) ==>
              Others(jump, states[n].forward) == Others(jump, states[0].forward)
  {
    if n > 0 {
      RunKeepsSound(jump, states, ops, n - 1);
      StepKeepsSound(jump, states[n - 1], ops[n - 1], states[n]);
    }
  }

  lemma {:induction false} FrontJump(jump: ForwardRule, states: seq<Table>, ops: seq<Op>, n: nat)
    requires Run(jump, states, ops) && n <= |ops|
    requires jump !in states[0].forward
    requires forall i | 0 <= i < |ops| :: !ops[i].ForeignOp?
    ensures states[n].forward == states[0].forward || states[n].forward == [jump] + states[0].forward
  {
    if n > 0 {
      FrontJump(jump, states, ops, n - 1);
      NoJumpFacts(jump, states[0].forward);
      var f := [jump] + states[0].forward;
      assert f[1..] == states[0].forward;
      assert Step(jump, states[n - 1], ops[n - 1], states[n]);
    }
  }

  /**
   Firewall life cycle: from a FORWARD list without the jump, through any run of possibly failing
   calls, the list is the original one with at most the jump in front; a successful Reconcile leaves
   its chain exactly, and a clean Teardown the original list and no chain.
   */
  lemma Lifecycle(jump: ForwardRule, states: seq<Table>, ops: seq<Op>, n: nat)
    requires Run(jump, states, ops) && n < |ops|
    requires jump !in states[0].forward
    requires forall i | 0 <= i < |ops| :: !ops[i].ForeignOp?
    ensures states[n + 1].forward == states[0].forward || states[n + 1].forward == [jump] + states[0].forward
    ensures jump in states[n + 1].forward ==> states[n + 1].chain.Some?
    ensures ops[n].ReconcileOp? && ops[n].ok ==>
              states[n + 1] == Table([jump] + states[0].forward, Some(ops[n].rules))
    ensures ops[n].TeardownOp? && ops[n].clean ==> states[n + 1] == Table(states[0].forward, None)
  {
    NoJumpFacts(jump, states[0].forward);
    FrontJump(jump, states, ops, n);
    FrontJump(jump, states, ops, n + 1);
    RunKeepsSound(jump, states, ops, n);
    RunKeepsSound(jump, states, ops, n + 1);
    StepKeepsSound(jump, states[n], ops[n], states[n + 1]);
  }

  // ---------- what enforcement takes ----------

  /** FORWARD starts with the jump. */
  predicate JumpFirst(jump: ForwardRule, f: seq<ForwardRule>) {
    f != [] && f[0] == jump
  }

  /** There is no jump, or FORWARD starts with it: nothing comes before the policy. */
  predicate JumpLeads(jump: ForwardRule, f: seq<ForwardRule>) {
    jump !in f || JumpFirst(jump, f)
  }

  /** A packet on its way through FORWARD, with the interfaces it came in and goes out by. */
  datatype Transit = Transit(packet: Packet, inIface: string, outIface: string)

  /** What the arguments of a rule say: interfaces to match, if any, and where to go. */
  datatype Clause = Clause(inIface: Option<string>, outIface: Option<string>, target: Option<string>)

  /** The meaning of a rule that has only interface and target arguments, each at most once. */
  function Meaning(rule: ForwardRule): (r: Option<Clause>) {
    if rule == [] then Some(Clause(None, None, None))
    else if |rule| == 1 then None
    else
      var rest := Meaning(rule[2..]);
      if rest.None? then None
      else if rule[0] == "-i" && rest.value.inIface.None? then Some(rest.value.(inIface := Some(rule[1])))
      else if rule[0] == "-o" && rest.value.outIface.None? then Some(rest.value.(outIface := Some(rule[1])))
      else if rule[0] == "-j" && rest.value.target.None? then Some(rest.value.(target := Some(rule[1])))
      else None
  }

  /** iptables reads a trailing plus sign as "any ending". */
  predicate Wildcard(pattern: string) {
    pattern != "" && pattern[|pattern| - 1] == '+'
  }

  predicate MatchesName(pattern: string, name: string) {
    if Wildcard(pattern) then |pattern| - 1 <= |name| && name[..|pattern| - 1] == pattern[..|pattern| - 1]
    else name == pattern
  }

  /** The rule goes to the agent's chain, for the packets it matches. */
  predicate ToChain(rule: ForwardRule) {
    Meaning(rule).Some? && Meaning(rule).value.target == Some("SEINE-FWD")
  }

  /** The rule sends this packet to the agent's chain. */
  predicate SendsToChain(rule: ForwardRule, x: Transit) {
    && ToChain(rule)
    && (Meaning(rule).value.inIface.Some? ==> MatchesName(Meaning(rule).value.inIface.value, x.inIface))
    && (Meaning(rule).value.outIface.Some? ==> MatchesName(Meaning(rule).value.outIface.value, x.outIface))
  }

  /** The packet both enters and leaves by an interface that `iface` names. */
  predicate Within(iface: string, x: Transit) {
    MatchesName(iface, x.inIface) && MatchesName(iface, x.outIface)
  }

  /** The agent's rule sends to the agent's chain exactly the packets that enter and leave by its interface. */
  lemma JumpMeaning(iface: string, x: Transit)
    ensures ToChain(ForwardJump(iface)) && (SendsToChain(ForwardJump(iface), x) <==> Within(iface, x))
    ensures !Wildcard(iface) ==> (SendsToChain(ForwardJump(iface), x) <==> x.inIface == iface && x.outIface == iface)
    ensures x.inIface == iface && x.outIface == iface ==> SendsToChain(ForwardJump(iface), x)
  {
    var jump := ForwardJump(iface);
    assert "-i"[1] != "-o"[1] && "-i"[1] != "-j"[1] && "-o"[1] != "-j"[1];
    assert jump[2..] == ["-o", iface, "-j", "SEINE-FWD"] && jump[2..][2..] == ["-j", "SEINE-FWD"];
    assert jump[2..][2..][2..] == [];
    assert Meaning(jump[2..][2..]) == Some(Clause(None, None, Some("SEINE-FWD")));
    assert Meaning(jump[2..]) == Some(Clause(None, Some(iface), Some("SEINE-FWD")));
  }

  /** What other programs' rules decide about a packet, if anything, and the policy of FORWARD. */
  datatype Rest = Rest(decides: (ForwardRule, Transit) -> Option<bool>, policy: bool)

  /** What one rule decides about a packet, if anything: the chain if it sends it there, else what others mean by it. */
  function Decides(rule: ForwardRule, chain: Option<seq<ChainRule>>, rest: Rest, x: Transit): (r: Option<bool>) {
    if !ToChain(rule) then rest.decides(rule, x)
    else if !SendsToChain(rule, x) || chain.None? then None
    else
      match Verdict(chain.value, x.packet)
      case Some(Accept) => Some(true)
      case Some(Drop) => Some(false)
      case _ => None
  }

  /** Whether FORWARD lets a transit packet through: the first rule that decides, else the policy. */
  function LetsThrough(f: seq<ForwardRule>, chain: Option<seq<ChainRule>>, rest: Rest, x: Transit): (r: bool) {
    if f == [] then rest.policy
    else
      var decided := Decides(f[0], chain, rest, x);
      if decided.Some? then decided.value else LetsThrough(f[1..], chain, rest, x)
  }

  /** The first rule of FORWARD that could decide about the packet sends it to the chain. */
  predicate Leads(f: seq<ForwardRule>, x: Transit) {
    f != [] && (SendsToChain(f[0], x) || (ToChain(f[0]) && Leads(f[1..], x)))
  }

  /** A successful Reconcile leaves the jump first exactly when it found it missing or first. */
  lemma ReconcileLeads(jump: ForwardRule, rules: seq<ChainRule>, s: Table, t: Table)
    requires Reconciles(jump, rules, s, t, true)
    ensures JumpFirst(jump, t.forward) <==> JumpLeads(jump, s.forward)
  {
  }

  /** For packets of the agent's interface, a FORWARD list that starts with the jump leads to the chain. */
  lemma JumpFirstLeads(iface: string, f: seq<ForwardRule>, x: Transit)
    requires JumpFirst(ForwardJump(iface), f) && Within(iface, x)
    ensures Leads(f, x)
  {
    JumpMeaning(iface, x);
  }

  /** And only such a list, unless other programs use the agent's chain too. */
  lemma LeadsOnlyFirst(iface: string, f: seq<ForwardRule>, x: Transit)
    requires Within(iface, x) && forall rule <- f :: rule != ForwardJump(iface) ==> !ToChain(rule)
    ensures Leads(f, x) <==> JumpFirst(ForwardJump(iface), f)
  {
    JumpMeaning(iface, x);
  }

  lemma {:induction false} LedIsDecided(f: seq<ForwardRule>, rules: seq<ChainRule>, rest: Rest, x: Transit,
                                        accept: bool)
    requires Leads(f, x) && Verdict(rules, x.packet) == Some(if accept then Accept else Drop)
    ensures LetsThrough(f, Some(rules), rest, x) == accept
  {
    if !SendsToChain(f[0], x) {
      LedIsDecided(f[1..], rules, rest, x, accept);
    }
  }

  /** Other rules that always say the opposite get their way. */
  lemma {:induction false} NotLedIsBypassed(f: seq<ForwardRule>, chain: Option<seq<ChainRule>>, rest: Rest, x: Transit,
                                            accept: bool)
    requires !Leads(f, x) && rest == Rest((_, _) => Some(!accept), !accept)
    ensures LetsThrough(f, chain, rest, x) == !accept
  {
    if f != [] && ToChain(f[0]) {
      NotLedIsBypassed(f[1..], chain, rest, x, accept);
    }
  }

  /**
   The chain's verdict on a packet stands, whatever other programs' rules and the policy say, exactly
   when FORWARD leads the packet to the chain.
   */
  lemma EnforcedExactly(t: Table, rules: seq<ChainRule>, x: Transit, accept: bool)
    requires t.chain == Some(rules) && Verdict(rules, x.packet) == Some(if accept then Accept else Drop)
    ensures Leads(t.forward, x) <==> forall rest :: LetsThrough(t.forward, t.chain, rest, x) == accept
  {
    if Leads(t.forward, x) {
      forall rest
        ensures LetsThrough(t.forward, t.chain, rest, x) == accept
      {
        LedIsDecided(t.forward, rules, rest, x, accept);
      }
    } else {
      var rest := Rest((_, _) => Some(!accept), !accept);
      NotLedIsBypassed(t.forward, t.chain, rest, x, accept);
      assert LetsThrough(t.forward, t.chain, rest, x) != accept;
    }
  }

  /** Traffic of other interfaces fares as if the agent were not there. */
  lemma {:induction false} OthersUnaffected(iface: string, f: seq<ForwardRule>, chain: Option<seq<ChainRule>>,
                                            rest: Rest, x: Transit)
    requires !Within(iface, x)
    ensures LetsThrough(f, chain, rest, x) == LetsThrough(Others(ForwardJump(iface), f), chain, rest, x)
  {
    if f != [] {
      JumpMeaning(iface, x);
      OthersUnaffected(iface, f[1..], chain, rest, x);
      if f[0] != ForwardJump(iface) {
        assert ([f[0]] + Others(ForwardJump(iface), f[1..]))[1..] == Others(ForwardJump(iface), f[1..]);
      }
    }
  }

  /**
   docs/internal/netpolicy.md keeps the jump ahead of what other components add.  It is not put back
   there: Reconcile, a rule inserted before the jump, Reconcile again, all successful, and a packet that
   the chain drops can pass.
   */
  lemma JumpBehindOthers(iface: string, rules: seq<ChainRule>, x: Transit)
    requires Verdict(rules, x.packet) == Some(Drop)
    ensures var jump, other := ForwardJump(iface), ["-j", "ACCEPT"];
            var t := Table([other, jump], Some(rules));
            && Run(jump, [Table([], None), Table([jump], Some(rules)), t, t],
                   [ReconcileOp(rules, true), ForeignOp, ReconcileOp(rules, true)])
            && exists rest :: LetsThrough(t.forward, t.chain, rest, x)
  {
    var jump, other := ForwardJump(iface), ["-j", "ACCEPT"];
    var t := Table([other, jump], Some(rules));
    assert t.forward[1] == jump && |other| != |jump|;
    assert [jump][0] == jump;
    assert "ACCEPT"[0] != "SEINE-FWD"[0];
    assert LetsThrough(t.forward, t.chain, Rest((_, _) => Some(true), false), x);
  }

  /** A foreign edit that puts nothing before the jump and does not drop it. */
  ghost predicate Respectful(jump: ForwardRule, s: Table, t: Table) {
    JumpLeads(jump, t.forward) && (jump in s.forward ==> jump in t.forward)
  }

  ghost predicate RespectfulRun(jump: ForwardRule, states: seq<Table>, ops: seq<Op>) {
    && Run(jump, states, ops)
    && forall i | 0 <= i < |ops| && ops[i].ForeignOp? :: Respectful(jump, states[i], states[i + 1])
  }

  lemma StepLeads(jump: ForwardRule, s: Table, op: Op, t: Table)
    requires Sound(jump, s) && JumpLeads(jump, s.forward) && Step(jump, s, op, t)
    requires op.ForeignOp? ==> Respectful(jump, s, t)
    ensures JumpLeads(jump, t.forward)
  {
    RemoveFirstFacts(jump, s.forward);
  }

  lemma {:induction false} RunLeads(jump: ForwardRule, states: seq<Table>, ops: seq<Op>, n: nat)
    requires RespectfulRun(jump, states, ops) && n <= |ops|
    requires Sound(jump, states[0]) && JumpLeads(jump, states[0].forward)
    ensures Sound(jump, states[n]) && JumpLeads(jump, states[n].forward)
  {
    if n > 0 {
      RunLeads(jump, states, ops, n - 1);
      assert Step(jump, states[n - 1], ops[n - 1], states[n]);
      StepKeepsSound(jump, states[n - 1], ops[n - 1], states[n]);
      StepLeads(jump, states[n - 1], ops[n - 1], states[n]);
    }
  }

  /** The last thing the agent did to the table, at step `k`, was a successful Reconcile to `rules`. */
  ghost predicate LastReconciled(ops: seq<Op>, k: nat, rules: seq<ChainRule>) {
    && k < |ops| && ops[k] == ReconcileOp(rules, true)
    && forall i | k < i < |ops| :: ops[i].ForeignOp?
  }

  /**
   Enforcement over runs: through any run of possibly failing calls and of foreign edits that respect
   the jump, after a successful Reconcile FORWARD starts with the jump and the chain is the built one.
   */
  lemma {:induction false} RunEnforces(jump: ForwardRule, states: seq<Table>, ops: seq<Op>, k: nat,
                                       rules: seq<ChainRule>, n: nat)
    requires RespectfulRun(jump, states, ops) && Sound(jump, states[0]) && JumpLeads(jump, states[0].forward)
    requires LastReconciled(ops, k, rules) && k < n <= |ops|
    ensures JumpFirst(jump, states[n].forward) && states[n].chain == Some(rules)
  {
    assert Step(jump, states[n - 1], ops[n - 1], states[n]);
    RunLeads(jump, states, ops, n - 1);
    RunLeads(jump, states, ops, n);
    if n == k + 1 {
      ReconcileLeads(jump, rules, states[k], states[n]);
    } else {
      RunEnforces(jump, states, ops, k, rules, n - 1);
    }
  }
}
