/**
 The agent: its token, its registration and one pass of its reconcile loop, against
 the server, the kernel device and the firewall.
 */
module Agent {
  import opened Net
  import opened Spec
  import opened Wg
  import opened Topology
  import opened Routing
  import opened Netpolicy
  import opened Store
  import opened ControlPlane
  import F = Firewall

  datatype Config = Config(name: string, bootstrapToken: string, publicKey: string, advertisedEndpoint: string)

  /** The outside of one registration attempt: the server's random source, its clock, and the agent's disk. */
  datatype Attempt = Attempt(id: Option<string>, token: Option<string>, now: int, persists: bool)

  datatype RegisterResult = RegisterOk | RegisterRefused(code: Code) | PersistFailed

  datatype Pass =
    | Done
    | Reregistered
    | ReregisterFailed(why: RegisterResult)
    | HeartbeatFailed(code: Code)
    | SpecUnavailable
    | PeersFailed(failure: Failure)
    | ApplyFailed
    | AclFailed

  /** Whether the kernel and iptables answer the calls of a pass. */
  datatype Local = Local(kernel: bool, iptables: bool)

  // ---------- what the server answers ----------

  /** The digest the server looks up for an agent with this token, if it sees one. */
  function DigestOf(hash: string -> Digest, token: string): (r: Option<Digest>) {
    if token == "" then None else Some(hash(TrimSpace(token)))
  }

  /** A heartbeat as the server finds it: its table and document, the token's digest, the reported endpoint. */
  datatype Question = Question(
    rows: map<string, Row>,
    known: Option<Snapshot>,
    digest: Option<Digest>,
    endpoint: string)

  /** Row `n` has the digest. */
  predicate Opens(q: Question, n: string) {
    n in q.rows && Some(q.rows[n].tokenHash) == q.digest
  }

  /** The token opens some row. */
  predicate Accepted(q: Question) {
    exists n <- q.rows :: Opens(q, n)
  }

  /** `registry` shows the declared part of the table as it stands, listed as `all`. */
  ghost predicate Shows(q: Question, all: seq<Row>, registry: seq<PeerInfo>) {
    q.known.Some? && Enumerates(all, q.rows) && registry == Visible(q.known.value.doc, all, "", "")
  }

  ghost predicate Hears(q: Question, registry: seq<PeerInfo>) {
    exists all :: Shows(q, all, registry)
  }

  /** The server counted the heartbeat `q` under row `n`, which left it at `after`. */
  ghost predicate CountedAs(q: Question, n: string, now: int, after: Question) {
    && Opens(q, n) && after.rows == BeatRows(q.rows, q.rows[n].id, q.endpoint, now)
    && after.known == q.known && after.digest == q.digest && after.endpoint == q.endpoint
  }

  ghost predicate Beats(q: Question, now: int, after: Question) {
    exists n :: CountedAs(q, n, now, after)
  }

  /** The server counted the heartbeat, which left it at `after`, and answered `registry`. */
  ghost predicate Answers(q: Question, now: int, after: Question, registry: seq<PeerInfo>) {
    Beats(q, now, after) && Hears(after, registry)
  }

  lemma BeatKeepsRegistered(rows: map<string, Row>, id: string, endpoint: string, now: int)
    requires Registered(rows)
    ensures Registered(BeatRows(rows, id, endpoint, now))
  {
  }

  /** What the server sends its caller, the reported endpoint overriding the row's, is what the table shows. */
  lemma AnsweredBy(q: Question, n: string, now: int, after: Question, all: seq<Row>, registry: seq<PeerInfo>)
    requires CountedAs(q, n, now, after) && q.known.Some? && Enumerates(all, after.rows)
    requires registry == Visible(q.known.value.doc, all, q.rows[n].id, q.endpoint)
    ensures Answers(q, now, after, registry)
  {
    OverrideIsRedundant(q.known.value.doc, q.rows, all, q.rows[n].id, q.endpoint, now);
    assert Shows(after, all, registry);
  }

  /** By name, an answer holds exactly the declared rows, each as the table has it. */
  lemma HeardMeaning(q: Question, registry: seq<PeerInfo>)
    requires Hears(q, registry) && Registered(q.rows)
    ensures q.known.Some?
    ensures forall m :: m in ByName(registry) <==> m in q.rows && Declared(q.known.value.doc, m)
    ensures forall m <- ByName(registry) ::
              && ByName(registry)[m].publicKey == q.rows[m].publicKey
              && ByName(registry)[m].endpoint == q.rows[m].endpoint
  {
    var all :| Shows(q, all, registry);
    ResponseMeaning(q.known.value.doc, q.rows, all, "", "");
  }

  /** Every row could have been written by a registration, and ids are unique. */
  ghost predicate ProperTable(rows: map<string, Row>) {
    Registered(rows) && forall m <- rows, n <- rows :: rows[m].id == rows[n].id ==> m == n
  }

  // ---------- what the agent makes of it ----------

  /** What the agent goes by: the document it has, and what it was told about itself at startup. */
  datatype Plan = Plan(lib: Lib, doc: Document, self: Self)

  /** The peers the agent wants for a given response. */
  function Desired(plan: Plan, registry: seq<PeerInfo>): (r: Result<seq<Peer>, Failure>) {
    PeersFor(plan.lib, plan.doc, plan.self, registry, plan.doc.spec.wireguard.persistentKeepalive)
  }

  /** A hub's part of the filter table. */
  datatype Filter = Filter(iface: string, table: F.Table) {
    /** The rule that hands the traffic of the interface to the agent's chain. */
    function Jump(): (r: F.ForwardRule) {
      F.ForwardJump(iface)
    }
  }

  /** What a pass changes on its own machine; a spoke has no firewall. */
  datatype Machine = Machine(dev: Device, filter: Option<Filter>)

  /** The kernel went from `s` to the desired peers. */
  ghost predicate Converges(s: Device, desired: seq<Peer>, t: Device) {
    Applies(s, desired, t, true) && (Installable(desired) ==> t == Target(s, desired))
  }

  /** A Reconcile of the compiled policy took the filter from `s` to `t`. */
  ghost predicate Enforces(plan: Plan, s: Filter, t: Filter, ok: bool) {
    && s.iface == t.iface
    && exists c :: IsCompiled(plan.lib, plan.doc, c) && F.Reconciles(s.Jump(), Chain(c), s.table, t.table, ok)
  }

  /** What a pass that was answered with `registry` did to its machine, by its outcome. */
  ghost predicate Locally(plan: Plan, registry: seq<PeerInfo>, local: Local, s: Machine, r: Pass, t: Machine) {
    var desired := Desired(plan, registry);
    && s.filter.Some? == t.filter.Some?
    && match r
       case Done =>
         && desired.Ok? && Converges(s.dev, desired.value, t.dev)
         && (s.filter.Some? ==> Enforces(plan, s.filter.value, t.filter.value, true))
       case PeersFailed(failure) => desired == Err(failure) && t == s
       case ApplyFailed =>
         !local.kernel && desired.Ok? && Applies(s.dev, desired.value, t.dev, false) && t.filter == s.filter
       case AclFailed =>
         && desired.Ok? && Converges(s.dev, desired.value, t.dev) && s.filter.Some?
         && if Parses(plan.lib, plan.doc) then !local.iptables && Enforces(plan, s.filter.value, t.filter.value, false)
            else t.filter == s.filter
       case _ => false
  }

  /** The pass was spent on registering again. */
  predicate Recovers(r: Pass) {
    r.Reregistered? || r.ReregisterFailed?
  }

  /** The pass ended before it got to its own machine. */
  predicate Remote(r: Pass) {
    Recovers(r) || r.HeartbeatFailed? || r.SpecUnavailable?
  }

  /** An answer the server gives now was followed. */
  ghost predicate Followed(plan: Plan, after: Question, local: Local, s: Machine, r: Pass, t: Machine) {
    exists registry :: Hears(after, registry) && Locally(plan, registry, local, s, r, t)
  }

  /** A whole pass: the heartbeat `q` at time `now` left the server at `after`, and its answer was followed. */
  ghost predicate Completed(plan: Plan, q: Question, now: int, after: Question, local: Local, s: Machine, r: Pass,
                            t: Machine)
  {
    Beats(q, now, after) && Followed(plan, after, local, s, r, t)
  }

  lemma CompletedBy(plan: Plan, q: Question, now: int, after: Question, registry: seq<PeerInfo>, local: Local,
                    s: Machine, r: Pass, t: Machine)
    requires Answers(q, now, after, registry) && Locally(plan, registry, local, s, r, t)
    ensures Completed(plan, q, now, after, local, s, r, t) && !Remote(r)
  {
  }

  /** What a followed answer does to the kernel device. */
  lemma LocalDevice(plan: Plan, registry: seq<PeerInfo>, local: Local, s: Machine, r: Pass, t: Machine)
    requires Locally(plan, registry, local, s, r, t)
    ensures Desired(plan, registry).Err? ==> t.dev == s.dev
    ensures Desired(plan, registry).Ok? ==> Applies(s.dev, Desired(plan, registry).value, t.dev, !r.ApplyFailed?)
    ensures r.Done? ==> Desired(plan, registry).Ok? && Converges(s.dev, Desired(plan, registry).value, t.dev)
  {
  }

  /** What a followed answer does to the firewall: nothing, or one Reconcile of the compiled policy. */
  lemma LocalFilter(plan: Plan, registry: seq<PeerInfo>, local: Local, s: Machine, r: Pass, t: Machine)
    requires Locally(plan, registry, local, s, r, t) && s.filter.Some?
    ensures t.filter.Some? && t.filter.value.iface == s.filter.value.iface
    ensures t.filter == s.filter || Enforces(plan, s.filter.value, t.filter.value, r.Done?)
    ensures r.Done? ==> Enforces(plan, s.filter.value, t.filter.value, true)
  {
  }

  // ---------- what a table lets a node compute ----------

  /** The plan is sound: a well-formed document that still says of `name` what it said at startup. */
  ghost predicate SoundPlan(plan: Plan, name: string) {
    && WellFormed(plan.lib, plan.doc) && Declared(plan.doc, name)
    && FindSelf(plan.lib, plan.doc, name) == Ok(plan.self)
  }

  predicate Resolves(lib: Lib, ep: string) {
    ResolveEndpoint(lib, ep).Ok? && ResolveEndpoint(lib, ep).value.Some?
  }

  /** The row can be peered with: its key parses and, for a hub, its endpoint resolves. */
  predicate RowDialable(lib: Lib, d: Document, r: Row) {
    lib.parseKey(r.publicKey).Some? && (IsHub(d, r.name) ==> Resolves(lib, r.endpoint))
  }

  /**
   Node `name` can compute its peers from the table: every registered node it depends on can be
   dialled, and a spoke's hub is registered and known to the server.
   */
  predicate Computable(lib: Lib, d: Document, name: string, known: Document, rows: map<string, Row>)
    requires Declared(d, name)
  {
    && (forall m <- rows :: DependsOn(d, name, m) ==> RowDialable(lib, d, rows[m]))
    && (IsSpoke(d, name) ==> HubOf(d, name) in rows && Declared(known, HubOf(d, name)))
  }

  /** The endpoint the node reports is none, or resolves, or is reported under no other name. */
  ghost predicate ReportsSafely(lib: Lib, name: string, q: Question) {
    q.endpoint == "" || Resolves(lib, q.endpoint) || forall m <- q.rows :: Opens(q, m) ==> m == name
  }

  /** From what the server has now, node `name` can compute its peers. */
  ghost predicate CanCompute(plan: Plan, name: string, q: Question) {
    && SoundPlan(plan, name) && q.known.Some?
    && Computable(plan.lib, plan.doc, name, q.known.value.doc, q.rows)
    && ReportsSafely(plan.lib, name, q)
  }

  lemma DependsOnOthers(lib: Lib, d: Document, name: string, m: string)
    requires WellFormed(lib, d) && Declared(d, name) && DependsOn(d, name, m)
    ensures m != name
  {
    DeclaredFacts(lib, d, name);
  }

  lemma BeatKeepsComputable(plan: Plan, name: string, q: Question, n: string, now: int, after: Question)
    requires CanCompute(plan, name, q) && ProperTable(q.rows) && CountedAs(q, n, now, after)
    ensures CanCompute(plan, name, after)
  {
    var d := plan.doc;
    forall m | m in after.rows && DependsOn(d, name, m)
      ensures RowDialable(plan.lib, d, after.rows[m])
    {
      DependsOnOthers(plan.lib, d, name, m);
      assert RowDialable(plan.lib, d, q.rows[m]);
    }
    assert forall m <- after.rows :: Opens(after, m) ==> Opens(q, m);
  }

  /** Registering `name` keeps the table computable for it. */
  lemma PutKeepsComputable(plan: Plan, name: string, q: Question, row: Row)
    requires CanCompute(plan, name, q) && row.name == name
    ensures CanCompute(plan, name, q.(rows := PutRow(q.rows, row)))
  {
    var d, after := plan.doc, PutRow(q.rows, row);
    forall m | m in after && DependsOn(d, name, m)
      ensures RowDialable(plan.lib, d, after[m])
    {
      DependsOnOthers(plan.lib, d, name, m);
      assert RowDialable(plan.lib, d, q.rows[m]);
    }
    forall m | m in after && m != name && Opens(q.(rows := after), m)
      ensures Opens(q, m)
    {
    }
  }

  /** Every answer on such a table gives a peer set. */
  lemma HeardComputes(plan: Plan, name: string, q: Question, registry: seq<PeerInfo>)
    requires CanCompute(plan, name, q) && Registered(q.rows) && Hears(q, registry)
    ensures Desired(plan, registry).Ok?
  {
    var lib, d := plan.lib, plan.doc;
    HeardMeaning(q, registry);
    forall m | m in ByName(registry) && DependsOn(d, name, m)
      ensures Dialable(lib, d, ByName(registry), m)
    {
      assert RowDialable(lib, d, q.rows[m]);
    }
    PeersForSucceeds(lib, d, name, registry, d.spec.wireguard.persistentKeepalive);
  }

  lemma BeatKeepsProper(q: Question, n: string, now: int, after: Question)
    requires ProperTable(q.rows) && CountedAs(q, n, now, after)
    ensures ProperTable(after.rows)
  {
  }

  /** A pass from a table on which the node can compute its peers is done if its machine works. */
  lemma MustBeDone(plan: Plan, name: string, q: Question, now: int, after: Question, s: Machine, r: Pass, t: Machine)
    requires CanCompute(plan, name, q) && ProperTable(q.rows)
    requires Completed(plan, q, now, after, Local(true, true), s, r, t)
    ensures r.Done?
  {
    var registry :| Hears(after, registry) && Locally(plan, registry, Local(true, true), s, r, t);
    var n :| CountedAs(q, n, now, after);
    BeatKeepsComputable(plan, name, q, n, now, after);
    BeatKeepsProper(q, n, now, after);
    HeardComputes(plan, name, after, registry);
    WellFormedParses(plan.lib, plan.doc);
  }

  /** The two tables agree on every name but `name`. */
  ghost predicate SameOthers(name: string, rows: map<string, Row>, rows': map<string, Row>) {
    forall n | n != name :: (n in rows <==> n in rows') && (n in rows ==> rows[n] == rows'[n])
  }

  /** A stored registration opens its row for the token it was issued, and touches no other. */
  lemma PutFacts(q: Question, row: Row, hash: string -> Digest, token: string)
    requires Registered(q.rows) && row.name != "" && row.publicKey != "" && row.tokenHash == hash(token)
    requires q.digest == DigestOf(hash, token)
    ensures Registered(PutRow(q.rows, row)) && SameOthers(row.name, q.rows, PutRow(q.rows, row))
    ensures Bare(token) ==> Accepted(q.(rows := PutRow(q.rows, row)))
  {
    if Bare(token) {
      assert Opens(q.(rows := PutRow(q.rows, row)), row.name);
    }
  }

  // ---------- the agent ----------

  class Agent {
    const cfg: Config
    const lib: Lib
    const self: Self
    const server: Server
    const iface: Interface
    const firewall: F.Firewall?
    var authToken: string
    var tokenFile: Option<string>
    var spec: Option<Snapshot>

    constructor (cfg: Config, lib: Lib, self: Self, server: Server, iface: Interface, firewall: F.Firewall?)
      ensures this.cfg == cfg && this.lib == lib && this.self == self
      ensures this.server == server && this.iface == iface && this.firewall == firewall
      ensures authToken == "" && tokenFile == None && spec == None
    {
      this.cfg, this.lib, this.self, this.server := cfg, lib, self, server;
      this.iface, this.firewall := iface, firewall;
      authToken, tokenFile, spec := "", None, None;
    }

    ghost predicate Valid()
      reads server, server.store, iface
    {
      server.store.Valid() && Registered(server.store.rows) && ValidDevice(iface.dev)
    }

    /** The agent's next heartbeat, if it held this token. */
    ghost function Asking(token: string): (q: Question)
      reads server, server.store
    {
      Question(server.store.rows, server.spec, DigestOf(server.hash, token), cfg.advertisedEndpoint)
    }

    ghost function PlanNow(): (p: Plan)
      requires spec.Some?
      reads this`spec
    {
      Plan(lib, spec.value.doc, self)
    }

    ghost function MachineNow(): (m: Machine)
      reads iface, firewall
    {
      Machine(iface.dev,
              if firewall == null then None else Some(Filter(firewall.iface, firewall.State())))
    }

    // ---------- registration ----------

    function Request(): (r: RegisterRequest) {
      RegisterRequest(cfg.name, cfg.bootstrapToken, cfg.publicKey, cfg.advertisedEndpoint)
    }

    /** The row the server would store for this agent, or why it would refuse. */
    ghost function Application(a: Attempt): (r: Result<Row, Code>)
      reads server
    {
      Admit(server.bootstrap, server.spec, Request(), a.id, a.token, server.hash, a.now)
    }

    /** On this table the attempt gets a token from the server. */
    ghost predicate Issues(a: Attempt, rows: map<string, Row>)
      reads server
    {
      Application(a).Ok? && !IdTaken(rows, Application(a).value) && a.token.value != ""
    }

    /** The agent holds the token of attempt `a`, and `rows` became a table with its row. */
    ghost predicate Renews(a: Attempt, rows: map<string, Row>)
      reads this`authToken, server, server.store
    {
      && Application(a).Ok? && server.store.rows == PutRow(rows, Application(a).value)
      && authToken == a.token.value && (Bare(authToken) ==> Accepted(Asking(authToken)))
    }

    /** The row says what the agent is configured with: its name, its key and, if it states one, its endpoint. */
    ghost predicate Presents(row: Row) {
      && row.name == cfg.name && row.publicKey == cfg.publicKey
      && (cfg.advertisedEndpoint != "" ==> row.endpoint == cfg.advertisedEndpoint)
    }

    /** `register`: the token is kept in memory even if it cannot be written to disk. */
    method Register(a: Attempt) returns (r: RegisterResult)
      requires Valid()
      modifies this`authToken, this`tokenFile, server.store
      ensures Valid()
      ensures if Issues(a, old(server.store.rows)) then
                && Renews(a, old(server.store.rows))
                && r == (if a.persists then RegisterOk else PersistFailed)
                && tokenFile == (if a.persists then Some(authToken) else old(tokenFile))
              else
                && r == RegisterRefused(if Application(a).Err? then Application(a).error else Internal)
                && authToken == old(authToken) && tokenFile == old(tokenFile)
                && (Application(a).Err? ==> server.store.rows == old(server.store.rows))
      ensures r.RegisterOk? || r.PersistFailed? ==>
                && cfg.name in server.store.rows && Presents(server.store.rows[cfg.name])
                && cfg.bootstrapToken == server.bootstrap
      ensures SameOthers(cfg.name, old(server.store.rows), server.store.rows)
    {
      if Application(a).Ok? {
        PutFacts(Asking(a.token.value), Application(a).value, server.hash, a.token.value);
      }
      var resp := server.Register(Request(), a.id, a.token, a.now);
      if resp.Err? {
        return RegisterRefused(resp.error);
      }
      if resp.value == "" {
        return RegisterRefused(Internal);
      }
      authToken := resp.value;
      if !a.persists {
        return PersistFailed;
      }
      tokenFile := Some(authToken);
      return RegisterOk;
    }

    /** Whether an attempt gets a token depends on the other rows only. */
    lemma SameIssues(a: Attempt, rows: map<string, Row>, rows': map<string, Row>)
      requires SameOthers(cfg.name, rows, rows')
      ensures Issues(a, rows) <==> Issues(a, rows')
    {
    }

    predicate Permanent(code: Code) {
      code.PermissionDenied? || code.Unauthenticated? || code.InvalidArgument?
    }

    /** What cannot be fixed by retrying: the same refusal awaits every attempt. */
    lemma PermanentRefusal(a: Attempt, b: Attempt)
      requires Application(a).Err? && Permanent(Application(a).error)
      ensures Application(b) == Application(a)
    {
    }

    /** Attempt `i` gets a token and writes it to disk. */
    ghost predicate Registers(attempts: seq<Attempt>, i: nat, rows: map<string, Row>)
      requires i < |attempts|
      reads server
    {
      Issues(attempts[i], rows) && attempts[i].persists
    }

    /** What the source takes as not fixable by retrying: bad arguments, a wrong bootstrap token, an undeclared name. */
    ghost predicate RefusedForGood()
      reads server
    {
      || cfg.name == "" || cfg.publicKey == "" || cfg.bootstrapToken != server.bootstrap
      || (server.spec.Some? && !Declared(server.spec.value.doc, cfg.name))
    }

    /** No attempt will ever get a token. */
    ghost predicate Hopeless(attempts: seq<Attempt>, rows: map<string, Row>)
      reads server
    {
      forall i | 0 <= i < |attempts| :: !Registers(attempts, i, rows)
    }

    /** One round of the retry loop; `rows` is the table it began with. */
    method TryRegister(attempts: seq<Attempt>, i: nat, ghost rows: map<string, Row>) returns (ok: bool, retry: bool)
      requires Valid() && i < |attempts| && SameOthers(cfg.name, rows, server.store.rows)
      modifies this`authToken, this`tokenFile, server.store
      ensures Valid() && SameOthers(cfg.name, rows, server.store.rows)
      ensures ok <==> Registers(attempts, i, rows)
      ensures ok ==> tokenFile == Some(authToken) && attempts[i].token == Some(authToken)
      ensures ok ==> (Bare(authToken) ==> Accepted(Asking(authToken)))
      ensures !retry <==> RefusedForGood()
      ensures !ok && !retry ==> Hopeless(attempts, rows)
    {
      SameIssues(attempts[i], rows, server.store.rows);
      var r := Register(attempts[i]);
      ok := r.RegisterOk?;
      retry := !(r.RegisterRefused? && Permanent(r.code));
      if !ok && !retry {
        forall j | 0 <= j < |attempts|
          ensures !Registers(attempts, j, rows)
        {
          PermanentRefusal(attempts[i], attempts[j]);
        }
      }
    }

    /**
     `loadOrRegister`: reuse the token on disk, if the file can be read, else register until it works, a
     permanent refusal comes back or the context ends; `tried` counts the attempts it made.
     */
    method LoadOrRegister(readable: bool, attempts: seq<Attempt>) returns (ok: bool, tried: nat)
      requires Valid()
      modifies this`authToken, this`tokenFile, server.store
      ensures Valid()
      ensures old(tokenFile).Some? ==>
                && ok == readable && tried == 0 && server.store.rows == old(server.store.rows)
                && authToken == if readable then old(tokenFile).value else old(authToken)
      ensures old(tokenFile).None? ==>
                (ok <==> cfg.bootstrapToken != "" && !Hopeless(attempts, old(server.store.rows)))
      ensures old(tokenFile).None? && ok ==>
                && tokenFile == Some(authToken) && (Bare(authToken) ==> Accepted(Asking(authToken)))
                && 0 < tried <= |attempts| && attempts[tried - 1].token == Some(authToken)
      ensures tried <= |attempts| && forall i | 0 <= i < tried - 1 :: !Registers(attempts, i, old(server.store.rows))
      ensures old(tokenFile).None? && !ok ==>
                tried == if cfg.bootstrapToken == "" then 0
                         else if RefusedForGood() && attempts != [] then 1 else |attempts|
    {
      tried := 0;
      if tokenFile.Some? {
        if readable {
          authToken := tokenFile.value;
        }
        return readable, 0;
      }
      if cfg.bootstrapToken == "" {
        return false, 0;
      }
      while tried < |attempts|
        invariant Valid() && SameOthers(cfg.name, old(server.store.rows), server.store.rows)
        invariant tried <= |attempts| && (tried > 0 ==> !RefusedForGood())
        invariant forall j | 0 <= j < tried :: !Registers(attempts, j, old(server.store.rows))
      {
        var retry;
        ok, retry := TryRegister(attempts, tried, old(server.store.rows));
        tried := tried + 1;
        if ok || !retry {
          return;
        }
      }
      ok := false;
    }

    // ---------- the two halves of a pass ----------

    /** The hub's part of the local half: compile the policy and install it. */
    method Enforce(works: bool) returns (ok: bool)
      requires spec.Some?
      modifies firewall
      ensures !ok ==> firewall != null
      ensures firewall != null ==>
                var s, t := old(MachineNow()).filter.value, MachineNow().filter.value;
                if ok || Parses(lib, spec.value.doc) then (works ==> ok) && Enforces(PlanNow(), s, t, ok) else t == s
    {
      if firewall == null {
        return true;
      }
      var compiled := Compile(lib, spec.value.doc);
      if compiled.Err? {
        return false;
      }
      ok := firewall.Reconcile(compiled.value, works);
    }

    /** The local half: compute, apply, enforce. */
    method ApplyLocally(registry: seq<PeerInfo>, local: Local) returns (r: Pass)
      requires spec.Some? && ValidDevice(iface.dev)
      modifies iface, firewall
      ensures ValidDevice(iface.dev)
      ensures Locally(PlanNow(), registry, local, old(MachineNow()), r, MachineNow())
    {
      var doc := spec.value.doc;
      var desired := ComputePeers(lib, doc, self, registry, doc.spec.wireguard.persistentKeepalive);
      if desired.Err? {
        return PeersFailed(desired.error);
      }
      var diff, ok := iface.ApplyPeers(desired.value, local.kernel);
      if !ok {
        return ApplyFailed;
      }
      ok := Enforce(local.iptables);
      return if ok then Done else AclFailed;
    }

    /** Authentication by the bearer header. */
    method Present() returns (r: Result<Row, Code>)
      requires Valid()
      ensures r.Ok? <==> Accepted(Asking(authToken))
      ensures r.Ok? ==> Opens(Asking(authToken), r.value.name) && server.store.rows[r.value.name] == r.value
    {
      BearerRoundTrip(authToken);
      r := server.Authenticate(Bearer(authToken));
      assert r.Ok? ==> Opens(Asking(authToken), r.value.name);
    }

    /** A heartbeat of the authenticated `caller`. */
    method Count(caller: Row, now: int) returns (r: Result<seq<PeerInfo>, Code>)
      requires Valid() && Opens(Asking(authToken), caller.name) && server.store.rows[caller.name] == caller
      modifies server.store
      ensures Valid()
      ensures r.Ok? ==> Answers(old(Asking(authToken)), now, Asking(authToken), r.value)
      ensures r.Err? ==> r == Err(Unavailable) && server.spec.None?
    {
      ghost var q := Asking(authToken);
      BeatKeepsRegistered(q.rows, caller.id, cfg.advertisedEndpoint, now);
      var resp := server.Heartbeat(caller, cfg.advertisedEndpoint, now);
      if resp.Err? {
        return Err(resp.error);
      }
      ghost var all :| Enumerates(all, server.store.rows) &&
                       resp.value.peers == Visible(server.spec.value.doc, all, caller.id, cfg.advertisedEndpoint);
      AnsweredBy(q, caller.name, now, Asking(authToken), all, resp.value.peers);
      return Ok(resp.value.peers);
    }

    /** One authenticated heartbeat. */
    method Beat(now: int) returns (r: Result<seq<PeerInfo>, Code>)
      requires Valid()
      modifies server.store
      ensures Valid()
      ensures r == Err(Unauthenticated) <==> !Accepted(old(Asking(authToken)))
      ensures r == Err(Unauthenticated) ==> server.store.rows == old(server.store.rows)
      ensures r.Err? && r.error != Unauthenticated ==> server.spec.None?
      ensures r.Ok? ==> Answers(old(Asking(authToken)), now, Asking(authToken), r.value)
    {
      var caller := Present();
      if caller.Err? {
        return Err(Unauthenticated);
      }
      r := Count(caller.value, now);
    }

    /** What trying to register again came to: a new token, in memory at least, exactly if the server issued one. */
    ghost predicate Recovered(a: Attempt, rows: map<string, Row>, token: string, file: Option<string>, r: Pass)
      reads this`authToken, this`tokenFile, server, server.store
    {
      if Issues(a, rows)
      then Renews(a, rows) && r == (if a.persists then Reregistered else ReregisterFailed(PersistFailed))
      else authToken == token && tokenFile == file && r.ReregisterFailed?
    }

    /** The answer to a rejected token: register again. */
    method Recover(a: Attempt) returns (r: Pass)
      requires Valid()
      modifies this`authToken, this`tokenFile, server.store
      ensures Valid() && Recovers(r)
      ensures Recovered(a, old(server.store.rows), old(authToken), old(tokenFile), r)
    {
      var rr := Register(a);
      return if rr.RegisterOk? then Reregistered else ReregisterFailed(rr);
    }

    // ---------- a pass ----------

    /** The local half, on the answer to heartbeat `q` at time `now`. */
    method Follow(ghost q: Question, ghost now: int, registry: seq<PeerInfo>, local: Local) returns (r: Pass)
      requires Valid() && spec.Some? && Answers(q, now, Asking(authToken), registry)
      modifies iface, firewall
      ensures Valid() && !Remote(r)
      ensures Completed(PlanNow(), q, now, Asking(authToken), local, old(MachineNow()), r, MachineNow())
    {
      ghost var after, s := Asking(authToken), MachineNow();
      r := ApplyLocally(registry, local);
      CompletedBy(PlanNow(), q, now, after, registry, local, s, r, MachineNow());
    }

    /** The rest of a pass whose heartbeat `q` at time `now` came back with `resp`. */
    method Proceed(ghost q: Question, ghost now: int, resp: Result<seq<PeerInfo>, Code>, local: Local) returns (r: Pass)
      requires Valid()
      requires resp.Ok? ==> Answers(q, now, Asking(authToken), resp.value)
      modifies iface, firewall
      ensures Valid()
      ensures if Remote(r) then MachineNow() == old(MachineNow())
              else && spec.Some?
                   && Completed(PlanNow(), q, now, Asking(authToken), local, old(MachineNow()), r, MachineNow())
      ensures !Recovers(r) && (r.HeartbeatFailed? <==> resp.Err?) && (resp.Err? ==> r.code == resp.error)
      ensures r.SpecUnavailable? ==> spec.None?
    {
      if resp.Err? {
        return HeartbeatFailed(resp.error);
      }
      if spec.None? {
        return SpecUnavailable;
      }
      r := Follow(q, now, resp.value, local);
    }

    /** A pass up to the point where a rejected token is dealt with. */
    method Attend(now: int, local: Local) returns (r: Pass)
      requires Valid()
      modifies server.store, iface, firewall
      ensures Valid()
      ensures if Remote(r) then MachineNow() == old(MachineNow())
              else && spec.Some?
                   && Completed(PlanNow(), old(Asking(authToken)), now, Asking(authToken), local, old(MachineNow()), r,
                                MachineNow())
      ensures !Recovers(r)
      ensures r == HeartbeatFailed(Unauthenticated) <==> !Accepted(old(Asking(authToken)))
      ensures r == HeartbeatFailed(Unauthenticated) ==> server.store.rows == old(server.store.rows)
      ensures r.HeartbeatFailed? && r.code != Unauthenticated ==> server.spec.None?
      ensures r.SpecUnavailable? ==> spec.None?
    {
      ghost var q, s := Asking(authToken), MachineNow();
      var resp := Beat(now);
      assert MachineNow() == s;
      r := Proceed(q, now, resp, local);
    }

    /** `reconcileOnce`: heartbeat, recover from a rejected token, then the local half. */
    method ReconcileOnce(a: Attempt, local: Local) returns (r: Pass)
      requires Valid()
      modifies this`authToken, this`tokenFile, server.store, iface, firewall
      ensures Valid()
      ensures if Remote(r) then MachineNow() == old(MachineNow())
              else && spec.Some?
                   && Completed(PlanNow(), old(Asking(authToken)), a.now, Asking(authToken), local,
                                old(MachineNow()), r, MachineNow())
      ensures Recovers(r) <==> !Accepted(old(Asking(authToken))) && cfg.bootstrapToken != ""
      ensures if Recovers(r) then Recovered(a, old(server.store.rows), old(authToken), old(tokenFile), r)
              else authToken == old(authToken) && tokenFile == old(tokenFile)
      ensures r.SpecUnavailable? ==> spec.None?
      ensures r.HeartbeatFailed? ==> server.spec.None? || !Accepted(old(Asking(authToken)))
    {
      r := Attend(a.now, local);
      if r == HeartbeatFailed(Unauthenticated) && cfg.bootstrapToken != "" {
        ghost var s := MachineNow();
        r := Recover(a);
        assert MachineNow() == s;
      }
    }

    // ---------- self-healing ----------

    /** The agent may register: right bootstrap token, declared name, documents loaded, a fresh id and a token. */
    ghost predicate MayRegister(a: Attempt)
      reads server, server.store
    {
      && cfg.bootstrapToken != "" && cfg.bootstrapToken == server.bootstrap && server.spec.Some?
      && cfg.name != "" && cfg.publicKey != "" && Declared(server.spec.value.doc, cfg.name)
      && a.id.Some? && a.token.Some? && Bare(a.token.value)
      && forall n <- server.store.rows :: server.store.rows[n].id != a.id.value
    }

    /** A pass of an agent that has an accepted token or may register: it recovers, or it does its work. */
    method Heal(a: Attempt, local: Local) returns (r: Pass)
      requires Valid() && spec.Some? && server.spec.Some? && (Accepted(Asking(authToken)) || MayRegister(a))
      modifies this`authToken, this`tokenFile, server.store, iface, firewall
      ensures Valid()
      ensures Recovers(r) <==> !Accepted(old(Asking(authToken)))
      ensures Recovers(r) ==>
                && MachineNow() == old(MachineNow()) && Accepted(Asking(authToken)) && a.token.Some?
                && (CanCompute(PlanNow(), cfg.name, old(Asking(a.token.value))) ==>
                      CanCompute(PlanNow(), cfg.name, Asking(authToken)))
      ensures !Recovers(r) ==>
                && Completed(PlanNow(), old(Asking(authToken)), a.now, Asking(authToken), local,
                             old(MachineNow()), r, MachineNow())
                && (CanCompute(PlanNow(), cfg.name, old(Asking(authToken))) && local == Local(true, true) ==> r.Done?)
    {
      ghost var q, s := Asking(authToken), MachineNow();
      ghost var renewed := if a.token.Some? then Asking(a.token.value) else q;
      server.store.IdsAreUnique();
      r := ReconcileOnce(a, local);
      if Recovers(r) {
        if CanCompute(PlanNow(), cfg.name, renewed) {
          PutKeepsComputable(PlanNow(), cfg.name, renewed, Application(a).value);
        }
      } else if CanCompute(PlanNow(), cfg.name, q) && local == Local(true, true) {
        MustBeDone(PlanNow(), cfg.name, q, a.now, Asking(authToken), s, r, MachineNow());
      }
    }

    /**
     Self-healing: whatever the table, the token in memory and the token on disk, with a right bootstrap
     token, a declared name and loaded documents, two passes are enough.  If the kernel and iptables
     answer and the table lets the node compute its peers, the last pass is `Done`, the kernel is at
     its target and the policy is installed; otherwise its outcome says what really failed.
     */
    method SelfHeal(a: Attempt, b: Attempt, local: Local) returns (r: Pass, passes: nat)
      requires Valid() && spec.Some? && MayRegister(a)
      modifies this`authToken, this`tokenFile, server.store, iface, firewall
      ensures Valid() && passes == (if Accepted(old(Asking(authToken))) then 1 else 2)
      ensures exists q, now ::
                Completed(PlanNow(), q, now, Asking(authToken), local, old(MachineNow()), r, MachineNow())
      ensures local == Local(true, true) ==>
                if Accepted(old(Asking(authToken)))
                then CanCompute(PlanNow(), cfg.name, old(Asking(authToken))) ==> r.Done?
                else CanCompute(PlanNow(), cfg.name, old(Asking(a.token.value))) ==> r.Done?
    {
      r := Heal(a, local);
      passes := 1;
      if Recovers(r) {
        r := Heal(b, local);
        passes := 2;
      }
    }
  }
}
