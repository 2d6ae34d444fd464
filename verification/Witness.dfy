/**
 A small network that meets the assumptions of the end-to-end theorem over runs: two
 hubs, a spoke on each, and one rule.  All four register, each completes a pass, and
 then a packet takes the longest route one way and is dropped the other way.
 */
module Witness {
  import opened Net
  import opened Sequences
  import opened Spec
  import opened Wg
  import opened Topology
  import opened Routing
  import opened Netpolicy
  import opened Store
  import opened ControlPlane
  import opened Forwarding
  import opened Deployment

  /** One digit, as an address and as a key. */
  function Digit(raw: string): (r: Option<Addr>) {
    if |raw| == 1 && '0' <= raw[0] <= '9' then Some((raw[0] - '0') as int) else None
  }

  function DigitKey(raw: string): (r: Option<Key>) {
    if Digit(raw).Some? then Some(Key(Digit(raw).value)) else None
  }

  const LIB := Lib(
    Digit,
    _ => Some(Prefix(0, 0)),
    DigitKey,
    _ => Some(("x", "1")),
    _ => Some(1),
    _ => Some(9),
    _ => None)

  const G := Hub("g", "e", "1")
  const H := Hub("h", "e", "2")
  const S := Agent("s", "3", "g", ["a"])
  const T := Agent("t", "4", "h", ["b"])
  const RULE := Acl(["a"], ["b"], ACTION_ALLOW)
  const DOC := Document(API_VERSION, KIND, "n",
                        Network("c", WireGuard(1420, DEFAULT_KEEPALIVE, 51820), [G, H], [S, T], ["a", "b"], [RULE]))
  const POLICY := Compiled([Rule(3, 4, true)], [], [1, 2], Prefix(0, 0))
  const KEYS: map<string, Key> := map["g" := Key(1), "h" := Key(2), "s" := Key(3), "t" := Key(4)]

  lemma Names()
    ensures "g" != "h" && "g" != "s" && "g" != "t" && "h" != "s" && "h" != "t" && "s" != "t" && "a" != "b"
  {
    assert "g"[0] != "h"[0] && "g"[0] != "s"[0] && "g"[0] != "t"[0];
    assert "h"[0] != "s"[0] && "h"[0] != "t"[0] && "s"[0] != "t"[0] && "a"[0] != "b"[0];
  }

  lemma Addresses()
    ensures Digit("1") == Some(1) && Digit("2") == Some(2) && Digit("3") == Some(3) && Digit("4") == Some(4)
  {
  }

  // ---------- the document ----------

  lemma NodesAreWellFormed()
    ensures WellFormedNodes(LIB, Prefix(0, 0), NodeNames([G, H], [S, T]), NodeIPs([G, H], [S, T]))
  {
    Names();
    Addresses();
    ContainsExamples(1);
    ContainsExamples(2);
    ContainsExamples(3);
    ContainsExamples(4);
    assert NodeNames([G, H], [S, T]) == ["g", "h", "s", "t"];
    assert NodeIPs([G, H], [S, T]) == ["1", "2", "3", "4"];
  }

  lemma DocIsWellFormed()
    ensures WellFormed(LIB, DOC)
  {
    Names();
    NodesAreWellFormed();
    assert G in [G, H] && H in [G, H];
    assert WellFormedAgent([G, H], ["a", "b"], S) && WellFormedAgent([G, H], ["a", "b"], T);
    assert WellFormedAcl(["a", "b"], RULE);
  }

  lemma DeclaredNames(n: string)
    ensures IsHub(DOC, n) <==> n == "g" || n == "h"
    ensures IsSpoke(DOC, n) <==> n == "s" || n == "t"
    ensures n == "s" ==> HubOf(DOC, n) == "g"
    ensures n == "t" ==> HubOf(DOC, n) == "h"
  {
    Names();
    assert [G, H][1..] == [H] && [H][1..] == [] && [S, T][1..] == [T] && [T][1..] == [];
  }

  lemma KeyFacts()
    ensures KEYS.Keys == {"g", "h", "s", "t"}
    ensures KEYS["g"] == Key(1) && KEYS["h"] == Key(2) && KEYS["s"] == Key(3) && KEYS["t"] == Key(4)
  {
    Names();
  }

  lemma KeysDiffer()
    ensures Injective(KEYS)
  {
    KeyFacts();
    forall n | n in KEYS
      ensures n == "g" || n == "h" || n == "s" || n == "t"
    {
      assert n in KEYS.Keys;
    }
  }

  lemma KeyIsDeclared(n: string)
    ensures n in KEYS <==> Declared(DOC, n)
  {
    KeyFacts();
    DeclaredNames(n);
    assert n in KEYS <==> n in KEYS.Keys;
  }

  lemma KeysFit()
    ensures Injective(KEYS) && forall n :: n in KEYS <==> Declared(DOC, n)
  {
    KeysDiffer();
    forall n
      ensures n in KEYS <==> Declared(DOC, n)
    {
      KeyIsDeclared(n);
    }
  }

  // ---------- the policy ----------

  lemma Members()
    ensures MembersOf(LIB, [S, T], ["a"]) == {3} && MembersOf(LIB, [S, T], ["b"]) == {4}
  {
    Names();
    Addresses();
    assert S in [S, T] && T in [S, T];
    assert MemberSet(LIB, [S, T], "a") == {3};
    assert MemberSet(LIB, [S, T], "b") == {4};
    assert "a" in ["a"] && "b" in ["b"];
  }

  lemma OnePair()
    ensures CoveredPairs(LIB, DOC, true) == iset{(3, 4)} && CoveredPairs(LIB, DOC, false) == iset{}
  {
    Members();
    assert RULE in [RULE];
    assert AclPairs(LIB, [S, T], RULE) == {(3, 4)};
  }

  lemma PolicyIsCompiled()
    ensures IsCompiled(LIB, DOC, POLICY)
  {
    OnePair();
    Addresses();
    assert HubList(LIB, [G, H]) == [1, 2];
    assert forall p: Pair <- iset{(3, 4)} :: Rule(p.0, p.1, true) in POLICY.allows;
  }

  /** The rule permits one direction only. */
  lemma OneWay()
    ensures Declared(DOC, "s") && Declared(DOC, "t")
    ensures Permitted(DOC, "s", "t") && !Permitted(DOC, "t", "s")
  {
    Names();
    DeclaredNames("s");
    DeclaredNames("t");
    assert [S, T][1..] == [T] && [T][1..] == [];
    assert InGroups(DOC, "s", ["a"]) && InGroups(DOC, "t", ["b"]) by {
      assert "a" in ["a"] && "b" in ["b"];
    }
    assert !InGroups(DOC, "t", ["a"]);
    assert RULE in DOC.spec.acls;
    assert ACTION_ALLOW[0] != ACTION_DENY[0];
  }

  // ---------- the run: everyone registers ----------

  const CFG := P.Config("b", _ => Digest(0))
  const SNAPSHOT := Snapshot(DOC, "c")

  function Registration(name: string, publicKey: string): (a: P.Action) {
    P.Register(Some(SNAPSHOT), RegisterRequest(name, "b", publicKey, ""), name, name, 0)
  }

  const ACTIONS := [Registration("g", "1"), Registration("h", "2"), Registration("s", "3"), Registration("t", "4")]

  const ROW_G := Row("g", "g", "1", "e", Digest(0), 0, 0)
  const ROW_H := Row("h", "h", "2", "e", Digest(0), 0, 0)
  const ROW_S := Row("s", "s", "3", "", Digest(0), 0, 0)
  const ROW_T := Row("t", "t", "4", "", Digest(0), 0, 0)
  const ROWS: map<string, Row> := map["g" := ROW_G, "h" := ROW_H, "s" := ROW_S, "t" := ROW_T]

  function Registers(s: P.Sys, row: Row): (t: P.Sys) {
    P.Sys(PutRow(s.rows, row), s.flights, s.log + [Put(row)], s.issued + [(row.name, row.name)], s.ids + {row.name})
  }

  const S1 := Registers(P.EMPTY, ROW_G)
  const S2 := Registers(S1, ROW_H)
  const S3 := Registers(S2, ROW_S)
  const S4 := Registers(S3, ROW_T)
  const STATES := [P.EMPTY, S1, S2, S3, S4]

  lemma OneRegisters(s: P.Sys, name: string, publicKey: string, row: Row)
    requires name in ROWS && row == ROWS[name] && row.publicKey == publicKey
    requires name !in s.ids && forall e <- s.issued :: e.1 != name
    ensures P.Step(CFG, s, Registration(name, publicKey), Registers(s, row))
  {
    Names();
    DeclaredNames(name);
    assert [G, H][1..] == [H];
  }

  lemma Issued()
    ensures S1.ids == {"g"} && S2.ids == {"g", "h"} && S3.ids == {"g", "h", "s"}
    ensures S1.issued == [("g", "g")] && S2.issued == [("g", "g"), ("h", "h")]
    ensures S3.issued == [("g", "g"), ("h", "h"), ("s", "s")]
  {
  }

  lemma LastTable()
    ensures S4.rows == ROWS
  {
    Names();
  }

  lemma FourSteps()
    ensures P.Step(CFG, P.EMPTY, Registration("g", "1"), S1) && P.Step(CFG, S1, Registration("h", "2"), S2)
    ensures P.Step(CFG, S2, Registration("s", "3"), S3) && P.Step(CFG, S3, Registration("t", "4"), S4)
  {
    Names();
    Issued();
    OneRegisters(P.EMPTY, "g", "1", ROW_G);
    OneRegisters(S1, "h", "2", ROW_H);
    OneRegisters(S2, "s", "3", ROW_S);
    OneRegisters(S3, "t", "4", ROW_T);
  }

  lemma RunOfFour(cfg: P.Config, s: P.Sys, a: P.Action, t: P.Sys, b: P.Action, u: P.Sys, c: P.Action, v: P.Sys,
                  d: P.Action, w: P.Sys)
    requires s == P.EMPTY && P.Step(cfg, s, a, t) && P.Step(cfg, t, b, u)
    requires P.Step(cfg, u, c, v) && P.Step(cfg, v, d, w)
    ensures P.Run(cfg, [s, t, u, v, w], [a, b, c, d])
  {
  }

  lemma RunExists()
    ensures P.Run(CFG, STATES, ACTIONS)
  {
    FourSteps();
    RunOfFour(CFG, P.EMPTY, Registration("g", "1"), S1, Registration("h", "2"), S2, Registration("s", "3"), S3,
              Registration("t", "4"), S4);
  }

  /** What each row says. */
  ghost predicate GoodRow(n: string, row: Row) {
    && n != "" && n in KEYS && row.name == n && row.id == n && row.publicKey != "" && row.tokenHash == Digest(0)
    && row.lastSeenAt == 0 && LIB.parseKey(row.publicKey) == Some(KEYS[n]) && (IsHub(DOC, n) ==> row.endpoint == "e")
  }

  lemma RowFacts()
    ensures ROWS.Keys == {"g", "h", "s", "t"} && forall n <- ROWS :: GoodRow(n, ROWS[n])
  {
    Names();
    Addresses();
    KeyFacts();
    DeclaredNames("s");
    DeclaredNames("t");
    assert GoodRow("g", ROW_G) && GoodRow("h", ROW_H) && GoodRow("s", ROW_S) && GoodRow("t", ROW_T);
  }

  // ---------- the answers ----------

  const ASKED := A.Question(ROWS, Some(SNAPSHOT), Some(Digest(0)), "")
  const LISTED := [ROW_G, ROW_H, ROW_S, ROW_T]

  lemma RowsAreListed()
    ensures Enumerates(LISTED, ROWS)
  {
    Names();
    assert NameLess("g", "h") && NameLess("g", "s") && NameLess("g", "t");
    assert NameLess("h", "s") && NameLess("h", "t") && NameLess("s", "t");
    assert LISTED[0] == ROW_G && LISTED[1] == ROW_H && LISTED[2] == ROW_S && LISTED[3] == ROW_T;
  }

  /** What the server answers to node `name`. */
  ghost function Heard(name: string): (r: seq<PeerInfo>)
    requires name in ROWS
  {
    Visible(DOC, LISTED, ROWS[name].id, "")
  }

  lemma BeatIsCounted(name: string)
    requires name in ROWS
    ensures A.CountedAs(ASKED, name, 0, ASKED)
  {
    RowFacts();
    assert GoodRow(name, ROWS[name]);
    forall n | n in ROWS
      ensures BeatRow(ROWS[n], ROWS[name].id, "", 0) == ROWS[n]
    {
      assert GoodRow(n, ROWS[n]);
    }
  }

  lemma AnswerIsHeard(name: string)
    requires name in ROWS
    ensures A.Answers(ASKED, 0, ASKED, Heard(name))
  {
    RowsAreListed();
    BeatIsCounted(name);
    A.AnsweredBy(ASKED, name, 0, ASKED, LISTED, Heard(name));
  }

  // ---------- the machines ----------

  const IFACE := "seine0"
  const REST := F.Rest((_, _) => None, false)

  ghost function Filter(name: string, t: F.Table): (r: Option<A.Filter>) {
    if IsHub(DOC, name) then Some(A.Filter(IFACE, t)) else None
  }

  ghost function Before(name: string): (m: A.Machine) {
    A.Machine(Device(map[], map[]), Filter(name, F.Table([], None)))
  }

  ghost function After(name: string, desired: seq<Peer>): (m: A.Machine) {
    A.Machine(Target(Device(map[], map[]), desired), Filter(name, F.Table([F.ForwardJump(IFACE)], Some(Chain(POLICY)))))
  }

  ghost function PlanFor(name: string): (p: A.Plan)
    requires name in KEYS
  {
    KeysFit();
    DocIsWellFormed();
    A.Plan(LIB, DOC, FindSelf(LIB, DOC, name).value)
  }

  const PASS := PassEvent(ASKED, 0, ASKED, A.Local(true, true), A.Done)

  ghost function SiteOf(name: string): (s: Site)
    requires name in KEYS
  {
    var desired := A.Desired(PlanFor(name), Heard(name));
    Site([Before(name), After(name, if desired.Ok? then desired.value else [])], [PASS], REST)
  }

  ghost function Four(): (w: World)
    ensures w.lib == LIB && w.doc == DOC && w.keys == KEYS && w.sites.Keys == KEYS.Keys
    ensures forall n <- w.sites :: w.sites[n] == SiteOf(n)
  {
    World(LIB, DOC, KEYS, map n | n in KEYS :: SiteOf(n))
  }

  lemma WorldIsValid()
    ensures ValidWorld(Four())
  {
    DocIsWellFormed();
    KeysFit();
  }

  lemma RowsAreGenuine()
    ensures A.ProperTable(ROWS) && GenuineRows(Four(), ROWS)
  {
    RowFacts();
  }

  lemma RowsAreComplete()
    ensures ListsEveryone(Four(), ASKED)
  {
    RowFacts();
    forall n | Declared(DOC, n)
      ensures n in ROWS
    {
      DeclaredNames(n);
      assert n in ROWS.Keys;
    }
  }

  lemma EverythingResolves(ep: string)
    requires ep != ""
    ensures A.Resolves(LIB, ep)
  {
  }

  lemma HubsAreResolved()
    ensures HubsResolve(Four(), ASKED)
  {
    RowFacts();
    forall m | m in ROWS && IsHub(DOC, m)
      ensures A.Resolves(LIB, ROWS[m].endpoint)
    {
      assert GoodRow(m, ROWS[m]);
      EverythingResolves(ROWS[m].endpoint);
    }
  }

  lemma TableIsGenuine()
    ensures Genuine(Four(), ASKED) && ListsEveryone(Four(), ASKED) && HubsResolve(Four(), ASKED)
  {
    RowsAreGenuine();
    RowsAreComplete();
    HubsAreResolved();
  }

  /** Installing on an empty device is one call that adds every peer. */
  lemma FirstApply(desired: seq<Peer>)
    requires Installable(desired)
    ensures Applies(Device(map[], map[]), desired, Target(Device(map[], map[]), desired), true)
  {
    var d, current: map<Key, Peer> := Device(map[], map[]), map[];
    var diff := Diff(AddedOf(current, desired), UpdatedOf(current, desired), []);
    assert Elements(diff.removed) == {};
    DiffReachesTarget(d, current, desired, diff);
    WholeIsLeading(DiffConfigs(diff));
    assert AppliesPart(d, desired, Target(d, desired), current, diff, DiffConfigs(diff));
  }

  lemma FirstReconcile(name: string, desired: seq<Peer>)
    requires name in KEYS && IsHub(DOC, name)
    ensures A.Enforces(PlanFor(name), Before(name).filter.value, After(name, desired).filter.value, true)
  {
    PolicyIsCompiled();
    assert [F.ForwardJump(IFACE)] + [] == [F.ForwardJump(IFACE)];
  }

  lemma PassIsDone(name: string)
    requires name in KEYS
    ensures A.Completed(PlanFor(name), ASKED, 0, ASKED, PASS.local, Before(name), A.Done, SiteOf(name).machines[1])
  {
    WorldIsValid();
    KeysFit();
    TableIsGenuine();
    AnswerIsHeard(name);
    TableComputes(Four(), name, ASKED);
    A.HeardComputes(PlanFor(name), name, ASKED, Heard(name));
    AnswerInstallable(Four(), name, ASKED, Heard(name));
    var desired := A.Desired(PlanFor(name), Heard(name)).value;
    FirstApply(desired);
    if IsHub(DOC, name) {
      FirstReconcile(name, desired);
    }
    A.CompletedBy(PlanFor(name), ASKED, 0, ASKED, Heard(name), PASS.local, Before(name), A.Done, After(name, desired));
  }

  lemma StartsFresh(name: string)
    ensures Fresh(Four(), name, Before(name))
  {
  }

  lemma LivesOnePass(w: World, name: string, s: A.Machine, e: Event, t: A.Machine, site: Site)
    requires WellFormed(w.lib, w.doc) && Declared(w.doc, name) && Fresh(w, name, s) && Happens(w, name, s, e, t)
    requires site.machines == [s, t] && site.events == [e]
    ensures Lives(w, name, site)
  {
    assert site.machines[0] == s && site.machines[1] == t && site.events[0] == e;
    assert HappensAt(w, name, site, 0);
  }

  lemma RespectsOnePass(s: A.Machine, e: Event, t: A.Machine, site: Site)
    requires site.machines == [s, t] && site.events == [e] && e.PassEvent? && e.r.Done?
    ensures RespectfulLife(site) && LastDone(site, 0)
  {
  }

  /** A life of one pass. */
  lemma OnePass(w: World, name: string, s: A.Machine, e: Event, t: A.Machine, site: Site, states: seq<P.Sys>)
    requires WellFormed(w.lib, w.doc) && Declared(w.doc, name) && Fresh(w, name, s) && Happens(w, name, s, e, t)
    requires site.machines == [s, t] && site.events == [e]
    requires e.PassEvent? && e.r.Done? && DrawnFrom(w, e.after, states) && ListsEveryone(w, e.after)
    ensures CompletedDuring(w, name, site, states)
  {
    LivesOnePass(w, name, s, e, t, site);
    RespectsOnePass(s, e, t, site);
    assert site.events[0] == e;
  }

  lemma AskedDuringRun()
    ensures DrawnFrom(Four(), ASKED, STATES)
  {
    LastTable();
    assert STATES[4] == S4;
  }

  lemma SiteCompletes(name: string)
    requires name in KEYS
    ensures Declared(DOC, name) && WellFormed(LIB, DOC) && CompletedDuring(Four(), name, SiteOf(name), STATES)
  {
    WorldIsValid();
    KeyIsDeclared(name);
    StartsFresh(name);
    PassIsDone(name);
    AskedDuringRun();
    RowsAreComplete();
    OnePass(Four(), name, Before(name), PASS, SiteOf(name).machines[1], SiteOf(name), STATES);
  }

  lemma RegistersOwnKey(a: P.Action)
    requires a in ACTIONS
    ensures a.Register? && a.req.name in KEYS && LIB.parseKey(a.req.publicKey) == Some(KEYS[a.req.name])
  {
    Addresses();
    KeyFacts();
    assert a == Registration("g", "1") || a == Registration("h", "2") || a == Registration("s", "3") ||
           a == Registration("t", "4");
  }

  lemma KeysAreHonest()
    ensures HonestKeys(CFG, Four(), ACTIONS)
  {
    forall a | a in ACTIONS
      ensures LIB.parseKey(a.req.publicKey) == Some(KEYS[a.req.name])
    {
      RegistersOwnKey(a);
    }
  }

  lemma EveryoneCompletes()
    ensures ValidWorld(Four()) && P.Run(CFG, STATES, ACTIONS) && HonestKeys(CFG, Four(), ACTIONS)
    ensures forall n | Declared(DOC, n) :: CompletedDuring(Four(), n, Four().sites[n], STATES)
  {
    WorldIsValid();
    RunExists();
    KeysFit();
    KeysAreHonest();
    forall n | Declared(DOC, n)
      ensures CompletedDuring(Four(), n, Four().sites[n], STATES)
    {
      SiteCompletes(n);
    }
  }

  lemma FourReconciled()
    ensures FullyReconciled(Four())
  {
    EveryoneCompletes();
    CompletedEverywhere(CFG, Four(), STATES, ACTIONS);
  }

  lemma RouteThroughBoth()
    ensures IsSpoke(DOC, "s") && IsSpoke(DOC, "t") && IsHub(DOC, HubOf(DOC, "s")) && IsHub(DOC, HubOf(DOC, "t"))
    ensures Route(DOC, "s", "t") == ["s", "g", "h", "t"]
  {
    Names();
    DeclaredNames("s");
    DeclaredNames("t");
    DeclaredNames("g");
    DeclaredNames("h");
  }

  /** One way a packet takes the longest route. */
  lemma LongestRoute()
    ensures ValidWorld(Four()) && HasFate(FabricOf(Four()), "s", "t", ["s", "g", "h", "t"], Delivered)
  {
    FourReconciled();
    OneWay();
    Names();
    RouteThroughBoth();
    var path, end := DeploymentEndToEnd(Four(), "s", "t");
    DeploymentConverges(Four());
    PermittedArrives(FabricOf(Four()), "s", "t");
  }

  /** The other way the first hub drops it. */
  lemma FirstHubDrops()
    ensures ValidWorld(Four()) && HasFate(FabricOf(Four()), "t", "s", ["t", "h"], Filtered)
  {
    FourReconciled();
    OneWay();
    Names();
    DeclaredNames("t");
    var path, end := DeploymentEndToEnd(Four(), "t", "s");
  }

  /** The assumptions of the end-to-end theorem over runs can be met, and both of its outcomes occur. */
  lemma EndToEndApplies()
    ensures ValidWorld(Four()) && P.Run(CFG, STATES, ACTIONS) && HonestKeys(CFG, Four(), ACTIONS)
    ensures forall n | Declared(DOC, n) :: CompletedDuring(Four(), n, Four().sites[n], STATES)
    ensures HasFate(FabricOf(Four()), "s", "t", ["s", "g", "h", "t"], Delivered)
    ensures HasFate(FabricOf(Four()), "t", "s", ["t", "h"], Filtered)
  {
    EveryoneCompletes();
    LongestRoute();
    FirstHubDrops();
  }
}
