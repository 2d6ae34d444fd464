/**
 The registration protocol as interleaved atomic steps over unbounded runs.  A
 heartbeat is three steps: the interceptor's lookup, UpdateHeartbeat and ListAgents;
 anything may happen in between.
 */
module Protocol {
  import opened Net
  import opened Spec
  import opened Store
  import opened Topology
  import opened Routing
  import opened ControlPlane

  /** A heartbeat past the interceptor: the row it authenticated as, and the endpoint it reports. */
  datatype Flight = Flight(caller: Row, endpoint: string)

  /** `issued` lists the tokens handed out, with their names; `ids` every id ever generated. */
  datatype Sys = Sys(
    rows: map<string, Row>,
    flights: map<nat, Flight>,
    log: seq<Stmt>,
    issued: seq<(string, string)>,
    ids: set<string>)

  const EMPTY := Sys(map[], map[], [], [], {})

  datatype Action =
    | Register(spec: Option<Snapshot>, req: RegisterRequest, id: string, token: string, now: int)
    | Begin(rid: nat, token: string, endpoint: string)
    | Update(rid: nat, when: int)
    | Finish(rid: nat)

  /** What the server is configured with. */
  datatype Config = Config(bootstrap: string, hash: string -> Digest)

  ghost predicate CollisionFree(cfg: Config) {
    forall x, y :: cfg.hash(x) == cfg.hash(y) ==> x == y
  }

  function AdmitAction(cfg: Config, a: Action): (r: Result<Row, Code>)
    requires a.Register?
  {
    Admit(cfg.bootstrap, a.spec, a.req, Some(a.id), Some(a.token), cfg.hash, a.now)
  }

  /** Generated ids and tokens are new. */
  ghost predicate Fresh(s: Sys, a: Action)
    requires a.Register?
  {
    a.id !in s.ids && forall t <- s.issued :: t.1 != a.token
  }

  /** One atomic step of the server from `s` to `t`. */
  ghost predicate Step(cfg: Config, s: Sys, a: Action, t: Sys) {
    match a
    case Register(_, _, id, token, _) =>
      var row := AdmitAction(cfg, a);
      && Fresh(s, a)
      && (if row.Err? then t == s.(ids := s.ids + {id})
          else t == Sys(PutRow(s.rows, row.value), s.flights, s.log + [Put(row.value)],
                        s.issued + [(row.value.name, token)], s.ids + {id}))
    case Begin(rid, token, endpoint) =>
      if exists n <- s.rows :: s.rows[n].tokenHash == cfg.hash(token) then
        exists n <- s.rows :: s.rows[n].tokenHash == cfg.hash(token) &&
                              t == s.(flights := s.flights[rid := Flight(s.rows[n], endpoint)])
      else t == s.(flights := s.flights - {rid})
    case Update(rid, when) =>
      if rid in s.flights then
        var f := s.flights[rid];
        t == s.(rows := BeatRows(s.rows, f.caller.id, f.endpoint, when),
                log := s.log + [Beat(f.caller.id, f.endpoint, when)])
      else t == s
    case Finish(rid) => t == s.(flights := s.flights - {rid})
  }

  ghost predicate Run(cfg: Config, states: seq<Sys>, actions: seq<Action>) {
    && |states| == |actions| + 1 && states[0] == EMPTY
    && forall i | 0 <= i < |actions| :: Step(cfg, states[i], actions[i], states[i + 1])
  }

  /** The token most recently issued to `name`. */
  ghost function MostRecent(issued: seq<(string, string)>, name: string): (r: Option<string>)
    ensures r.Some? ==> (name, r.value) in issued
  {
    if issued == [] then None
    else if issued[|issued| - 1].0 == name then Some(issued[|issued| - 1].1)
    else MostRecent(issued[..|issued| - 1], name)
  }

  // ---------- the invariant ----------

  ghost predicate Inv(cfg: Config, s: Sys) {
    && s.rows == Replay(s.log)
    && Registered(s.rows)
    && TokensAreLatest(cfg, s)
    && TokensAreDistinct(s.issued)
    && IdsAreKnown(s)
    && IdsIdentify(s)
  }

  /** Each row holds the digest of the token most recently issued to its name. */
  ghost predicate TokensAreLatest(cfg: Config, s: Sys) {
    forall n :: (n in s.rows <==> MostRecent(s.issued, n).Some?) &&
                (n in s.rows ==> s.rows[n].tokenHash == cfg.hash(MostRecent(s.issued, n).value))
  }

  ghost predicate TokensAreDistinct(issued: seq<(string, string)>) {
    forall i, j | 0 <= i < j < |issued| :: issued[i].1 != issued[j].1
  }

  ghost predicate IdsAreKnown(s: Sys) {
    (forall n <- s.rows :: s.rows[n].id in s.ids) && (forall rid <- s.flights :: s.flights[rid].caller.id in s.ids)
  }

  /** An id belongs to one name, in the table and in flight. */
  ghost predicate IdsIdentify(s: Sys) {
    && (forall m <- s.rows, n <- s.rows :: s.rows[m].id == s.rows[n].id ==> m == n)
    && (forall rid <- s.flights, n <- s.rows :: s.rows[n].id == s.flights[rid].caller.id ==>
          n == s.flights[rid].caller.name)
  }

  lemma MostRecentSnoc(issued: seq<(string, string)>, e: (string, string), n: string)
    ensures MostRecent(issued + [e], n) == if e.0 == n then Some(e.1) else MostRecent(issued, n)
  {
    assert (issued + [e])[..|issued|] == issued;
  }

  lemma RegisterTokens(cfg: Config, s: Sys, name: string, token: string, row: Row, t: Sys)
    requires TokensAreLatest(cfg, s) && TokensAreDistinct(s.issued)
    requires forall e <- s.issued :: e.1 != token
    requires row.name == name && row.tokenHash == cfg.hash(token)
    requires t.rows == PutRow(s.rows, row) && t.issued == s.issued + [(name, token)]
    ensures TokensAreLatest(cfg, t) && TokensAreDistinct(t.issued)
  {
    forall n
      ensures MostRecent(t.issued, n) == if name == n then Some(token) else MostRecent(s.issued, n)
    {
      MostRecentSnoc(s.issued, (name, token), n);
    }
  }

  lemma RegisterIds(s: Sys, row: Row, t: Sys)
    requires IdsAreKnown(s) && IdsIdentify(s) && row.id !in s.ids
    requires t.rows == PutRow(s.rows, row) && t.flights == s.flights && t.ids == s.ids + {row.id}
    ensures IdsAreKnown(t) && IdsIdentify(t) && !IdTaken(s.rows, row)
  {
  }

  lemma AcceptedKeepsInv(cfg: Config, s: Sys, row: Row, token: string, t: Sys)
    requires Inv(cfg, s) && row.id !in s.ids && forall e <- s.issued :: e.1 != token
    requires row.name != "" && row.publicKey != "" && row.tokenHash == cfg.hash(token)
    requires t == Sys(PutRow(s.rows, row), s.flights, s.log + [Put(row)], s.issued + [(row.name, token)],
                      s.ids + {row.id})
    ensures Inv(cfg, t)
  {
    assert t.log[..|s.log|] == s.log;
    RegisterTokens(cfg, s, row.name, token, row, t);
    RegisterIds(s, row, t);
  }

  lemma RegisterKeepsInv(cfg: Config, s: Sys, a: Action, t: Sys)
    requires Inv(cfg, s) && a.Register? && Step(cfg, s, a, t)
    ensures Inv(cfg, t)
  {
    var row := AdmitAction(cfg, a);
    if row.Ok? {
      AcceptedKeepsInv(cfg, s, row.value, a.token, t);
    }
  }

  /** A heartbeat touches neither names, keys, ids nor digests. */
  lemma BeatFacts(rows: map<string, Row>, id: string, endpoint: string, when: int)
    ensures var out := BeatRows(rows, id, endpoint, when);
            && out.Keys == rows.Keys
            && forall n <- out ::
                 && out[n].id == rows[n].id && out[n].name == rows[n].name
                 && out[n].publicKey == rows[n].publicKey && out[n].tokenHash == rows[n].tokenHash
  {
  }

  lemma SameIdentities(cfg: Config, s: Sys, t: Sys)
    requires TokensAreLatest(cfg, s) && IdsAreKnown(s) && IdsIdentify(s) && Registered(s.rows)
    requires t.flights == s.flights && t.issued == s.issued && t.ids == s.ids && t.rows.Keys == s.rows.Keys
    requires forall n <- t.rows ::
               && t.rows[n].id == s.rows[n].id && t.rows[n].name == s.rows[n].name
               && t.rows[n].publicKey == s.rows[n].publicKey && t.rows[n].tokenHash == s.rows[n].tokenHash
    ensures TokensAreLatest(cfg, t) && IdsAreKnown(t) && IdsIdentify(t) && Registered(t.rows)
  {
    assert forall n :: n in t.rows <==> n in s.rows;
  }

  lemma UpdateKeepsInv(cfg: Config, s: Sys, a: Action, t: Sys)
    requires Inv(cfg, s) && a.Update? && Step(cfg, s, a, t)
    ensures Inv(cfg, t)
  {
    if a.rid in s.flights {
      var f := s.flights[a.rid];
      assert t.log[..|s.log|] == s.log;
      BeatFacts(s.rows, f.caller.id, f.endpoint, a.when);
      SameIdentities(cfg, s, t);
    }
  }

  lemma StepKeepsInv(cfg: Config, s: Sys, a: Action, t: Sys)
    requires Inv(cfg, s) && Step(cfg, s, a, t)
    ensures Inv(cfg, t)
  {
    match a
    case Register(_, _, _, _, _) => RegisterKeepsInv(cfg, s, a, t);
    case Begin(_, _, _) =>
    case Update(_, _) => UpdateKeepsInv(cfg, s, a, t);
    case Finish(_) =>
  }

  lemma {:induction false} RunKeepsInv(cfg: Config, states: seq<Sys>, actions: seq<Action>, i: nat)
    requires Run(cfg, states, actions) && i < |states|
    ensures Inv(cfg, states[i])
  {
    if i > 0 {
      RunKeepsInv(cfg, states, actions, i - 1);
      StepKeepsInv(cfg, states[i - 1], actions[i - 1], states[i]);
    }
  }

  // ---------- the registry and its history ----------

  /** Registry refinement over runs: every row, at every moment, is the one its history prescribes. */
  lemma RegistryFollowsHistory(cfg: Config, states: seq<Sys>, actions: seq<Action>, i: nat, name: string)
    requires Run(cfg, states, actions) && i < |states|
    ensures name in states[i].rows <==> LastPut(states[i].log, name) >= 0
    ensures name in states[i].rows ==> states[i].rows[name] == RowFromHistory(states[i].log, name)
  {
    RunKeepsInv(cfg, states, actions, i);
    ReplayMeaning(states[i].log, name);
  }

  // ---------- tokens ----------

  ghost predicate AuthenticatesAs(cfg: Config, s: Sys, token: string, name: string) {
    name in s.rows && s.rows[name].tokenHash == cfg.hash(token)
  }

  /**
   Token uniqueness over runs: a token authenticates as a name exactly when it is the one most
   recently issued to that name, so older tokens are rejected and no token opens two rows.
   */
  lemma TokenUniqueness(cfg: Config, states: seq<Sys>, actions: seq<Action>, i: nat, token: string, name: string)
    requires CollisionFree(cfg) && Run(cfg, states, actions) && i < |states|
    ensures AuthenticatesAs(cfg, states[i], token, name) <==> MostRecent(states[i].issued, name) == Some(token)
    ensures AuthenticatesAs(cfg, states[i], token, name) ==>
              forall other :: AuthenticatesAs(cfg, states[i], token, other) ==> other == name
  {
    var s := states[i];
    RunKeepsInv(cfg, states, actions, i);
    forall other | AuthenticatesAs(cfg, s, token, name) && AuthenticatesAs(cfg, s, token, other)
      ensures other == name
    {
      assert (name, token) in s.issued && (other, token) in s.issued;
    }
  }

  /** A token followed by a later one for the same name is rejected for good. */
  lemma OldTokensRejected(cfg: Config, states: seq<Sys>, actions: seq<Action>, i: nat, k: nat, later: nat, name: string)
    requires CollisionFree(cfg) && Run(cfg, states, actions) && i < |states|
    requires k < later < |states[i].issued| && states[i].issued[k].0 == states[i].issued[later].0
    ensures !AuthenticatesAs(cfg, states[i], states[i].issued[k].1, name)
  {
    var issued := states[i].issued;
    TokenUniqueness(cfg, states, actions, i, issued[k].1, name);
    RunKeepsInv(cfg, states, actions, i);
    if MostRecent(issued, name) == Some(issued[k].1) {
      var j := MostRecentIsLast(issued, name);
    }
  }

  lemma {:induction false} MostRecentIsLast(issued: seq<(string, string)>, name: string) returns (j: nat)
    requires MostRecent(issued, name).Some?
    ensures j < |issued| && issued[j] == (name, MostRecent(issued, name).value)
    ensures forall k | j < k < |issued| :: issued[k].0 != name
  {
    if issued[|issued| - 1].0 == name {
      j := |issued| - 1;
    } else {
      j := MostRecentIsLast(issued[..|issued| - 1], name);
    }
  }

  // ---------- heartbeats in flight ----------

  /** No row carries the id the heartbeat authenticated as. */
  ghost predicate Stale(s: Sys, f: Flight) {
    forall n <- s.rows :: s.rows[n].id != f.caller.id
  }

  /** Registering the caller's name again makes the heartbeat stale. */
  lemma ReregistrationMakesStale(cfg: Config, s: Sys, a: Action, t: Sys, rid: nat)
    requires Inv(cfg, s) && a.Register? && Step(cfg, s, a, t) && rid in s.flights
    requires AdmitAction(cfg, a).Ok? && a.req.name == s.flights[rid].caller.name
    ensures Stale(t, s.flights[rid])
  {
  }

  /** Once stale, always stale: ids are never reused. */
  lemma {:induction false} StaleForever(cfg: Config, states: seq<Sys>, actions: seq<Action>, f: Flight, i: nat, j: nat)
    requires Run(cfg, states, actions) && i <= j < |states|
    requires f.caller.id in states[i].ids && Stale(states[i], f)
    ensures f.caller.id in states[j].ids && Stale(states[j], f)
  {
    if i < j {
      StaleForever(cfg, states, actions, f, i, j - 1);
      assert Step(cfg, states[j - 1], actions[j - 1], states[j]);
    }
  }

  /** What a stale heartbeat does: its update changes no row, and its response is the plain table. */
  lemma StaleIsHarmless(s: Sys, f: Flight, when: int, d: Document, all: seq<Row>)
    requires Stale(s, f) && Enumerates(all, s.rows)
    ensures BeatRows(s.rows, f.caller.id, f.endpoint, when) == s.rows
    ensures Visible(d, all, f.caller.id, f.endpoint) == Visible(d, all, "", "")
  {
    assert forall r <- all :: r.id != f.caller.id;
    SameEntries(d, all, f.caller.id, f.endpoint);
  }

  /**
   In-flight isolation: let a heartbeat be in flight when its name registers again.  From then on, at
   every moment of every run, its update step changes no row and its response shows stored endpoints only.
   */
  lemma InFlightIsolation(cfg: Config, states: seq<Sys>, actions: seq<Action>, rid: nat, j: nat, k: nat, when: int,
                          d: Document, all: seq<Row>)
    requires Run(cfg, states, actions) && j < |actions| && j < k < |states|
    requires rid in states[j].flights && actions[j].Register? && AdmitAction(cfg, actions[j]).Ok?
    requires actions[j].req.name == states[j].flights[rid].caller.name
    requires Enumerates(all, states[k].rows)
    ensures var f := states[j].flights[rid];
            && BeatRows(states[k].rows, f.caller.id, f.endpoint, when) == states[k].rows
            && Visible(d, all, f.caller.id, f.endpoint) == Visible(d, all, "", "")
  {
    var f := states[j].flights[rid];
    RunKeepsInv(cfg, states, actions, j);
    assert Step(cfg, states[j], actions[j], states[j + 1]);
    ReregistrationMakesStale(cfg, states[j], actions[j], states[j + 1], rid);
    StaleForever(cfg, states, actions, f, j + 1, k);
    StaleIsHarmless(states[k], f, when, d, all);
  }

  // ---------- hub endpoints ----------

  /** All registrations of the run were judged against the same document. */
  ghost predicate SameSpec(actions: seq<Action>, d: Document) {
    forall a <- actions :: a.Register? && a.spec.Some? ==> a.spec.value.doc == d
  }

  ghost predicate HubsHaveEndpoints(d: Document, s: Sys) {
    forall n <- s.rows :: IsHub(d, n) ==> s.rows[n].endpoint != ""
  }

  lemma {:induction false} HubEndpointInvariant(cfg: Config, lib: Lib, d: Document, states: seq<Sys>,
                                                actions: seq<Action>, i: nat)
    requires Run(cfg, states, actions) && i < |states| && WellFormed(lib, d) && SameSpec(actions, d)
    ensures HubsHaveEndpoints(d, states[i])
  {
    if i > 0 {
      HubEndpointInvariant(cfg, lib, d, states, actions, i - 1);
      assert Step(cfg, states[i - 1], actions[i - 1], states[i]);
      assert StatesHubEndpoints(d);
      assert actions[i - 1] in actions;
    }
  }

  /** Step `k` of the run reported `endpoint` under `name`: it registered with it, or sent a heartbeat with it. */
  ghost predicate ReportedAt(states: seq<Sys>, actions: seq<Action>, k: nat, name: string, endpoint: string)
    requires k < |actions| && k < |states|
  {
    var a := actions[k];
    || (a.Register? && a.req.name == name && a.req.endpoint == endpoint)
    || (a.Update? && a.rid in states[k].flights && states[k].flights[a.rid].caller.name == name &&
        states[k].flights[a.rid].endpoint == endpoint)
  }

  /** The document declares a hub of that name with that endpoint. */
  ghost predicate DeclaredEndpoint(d: Document, name: string, endpoint: string) {
    exists h <- d.spec.hubs :: h.name == name && h.endpoint == endpoint
  }

  lemma RegisteredEndpoint(cfg: Config, d: Document, s: Sys, a: Action, t: Sys, name: string)
    requires a.Register? && Step(cfg, s, a, t) && name in t.rows && IsHub(d, name)
    requires a.spec.Some? ==> a.spec.value.doc == d
    ensures || (name in s.rows && s.rows[name].endpoint == t.rows[name].endpoint)
            || DeclaredEndpoint(d, name, t.rows[name].endpoint)
            || (a.req.name == name && a.req.endpoint == t.rows[name].endpoint)
  {
  }

  lemma UpdatedEndpoint(cfg: Config, s: Sys, a: Action, t: Sys, name: string)
    requires a.Update? && Step(cfg, s, a, t) && name in t.rows && IdsIdentify(s)
    ensures name in s.rows
    ensures || s.rows[name].endpoint == t.rows[name].endpoint
            || (a.rid in s.flights && s.flights[a.rid].caller.name == name &&
                s.flights[a.rid].endpoint == t.rows[name].endpoint)
  {
    if a.rid in s.flights {
      var f := s.flights[a.rid];
      assert t.rows[name] == BeatRow(s.rows[name], f.caller.id, f.endpoint, a.when);
    }
  }

  /** One step keeps a row's endpoint, or makes it the declared or a reported one of its name. */
  lemma EndpointStep(cfg: Config, d: Document, states: seq<Sys>, actions: seq<Action>, k: nat, name: string)
    requires Run(cfg, states, actions) && k < |actions| && SameSpec(actions, d) && Inv(cfg, states[k])
    requires name in states[k + 1].rows && IsHub(d, name)
    ensures || (name in states[k].rows && states[k].rows[name].endpoint == states[k + 1].rows[name].endpoint)
            || DeclaredEndpoint(d, name, states[k + 1].rows[name].endpoint)
            || ReportedAt(states, actions, k, name, states[k + 1].rows[name].endpoint)
  {
    assert Step(cfg, states[k], actions[k], states[k + 1]) && actions[k] in actions;
    match actions[k]
    case Register(_, _, _, _, _) => RegisteredEndpoint(cfg, d, states[k], actions[k], states[k + 1], name);
    case Begin(_, _, _) =>
    case Update(rid, when) => UpdatedEndpoint(cfg, states[k], actions[k], states[k + 1], name);
    case Finish(_) =>
  }

  /**
   Where hub endpoints come from: under one document, at every moment of every run, the endpoint of a
   registered hub is its own declared one, or one that was reported under its name.
   */
  lemma {:induction false} HubEndpointOrigin(cfg: Config, d: Document, states: seq<Sys>, actions: seq<Action>, i: nat,
                                             name: string)
    requires Run(cfg, states, actions) && i < |states| && SameSpec(actions, d)
    requires name in states[i].rows && IsHub(d, name)
    ensures || DeclaredEndpoint(d, name, states[i].rows[name].endpoint)
            || exists k | 0 <= k < i :: ReportedAt(states, actions, k, name, states[i].rows[name].endpoint)
  {
    RunKeepsInv(cfg, states, actions, i - 1);
    EndpointStep(cfg, d, states, actions, i - 1, name);
    if name in states[i - 1].rows && states[i - 1].rows[name].endpoint == states[i].rows[name].endpoint {
      HubEndpointOrigin(cfg, d, states, actions, i - 1, name);
    }
  }

  lemma ShowsEndpoints(d: Document, s: Sys, all: seq<Row>, callerId: string, endpoint: string)
    requires HubsHaveEndpoints(d, s) && Registered(s.rows) && Enumerates(all, s.rows)
    ensures var shown := ByName(Visible(d, all, callerId, endpoint));
            forall n <- shown :: IsHub(d, n) ==> shown[n].endpoint != ""
  {
    ResponseMeaning(d, s.rows, all, callerId, endpoint);
  }

  /**
   Hub endpoint invariant across components: under one well-formed document, no response that any
   reachable registry can give makes a peer computation fail for a missing endpoint.
   */
  lemma NoMissingEndpoint(cfg: Config, lib: Lib, d: Document, states: seq<Sys>, actions: seq<Action>, i: nat,
                          all: seq<Row>, callerId: string, endpoint: string, name: string, keepalive: int)
    requires Run(cfg, states, actions) && i < |states| && WellFormed(lib, d) && SameSpec(actions, d)
    requires Enumerates(all, states[i].rows) && Declared(d, name)
    ensures PeersFor(lib, d, FindSelf(lib, d, name).value, Visible(d, all, callerId, endpoint), keepalive) !=
            Err(NoEndpoint)
  {
    HubEndpointInvariant(cfg, lib, d, states, actions, i);
    RunKeepsInv(cfg, states, actions, i);
    ShowsEndpoints(d, states[i], all, callerId, endpoint);
    EndpointsSuffice(lib, d, name, Visible(d, all, callerId, endpoint), keepalive);
  }
}
