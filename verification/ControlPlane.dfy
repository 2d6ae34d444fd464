/**
 The management server: registration, bearer authentication and heartbeats.
 */
module ControlPlane {
  import opened Net
  import opened Spec
  import opened Store
  import opened Topology

  datatype Code = InvalidArgument | Unauthenticated | Unavailable | PermissionDenied | Internal

  datatype RegisterRequest = RegisterRequest(name: string, bootstrapToken: string, publicKey: string, endpoint: string)

  /** A loaded document and its commit. */
  datatype Snapshot = Snapshot(doc: Document, commit: string)

  datatype HeartbeatResponse = HeartbeatResponse(specCommit: string, peers: seq<PeerInfo>)

  // ---------- the decisions of the handlers ----------

  function ResolveRole(d: Document, name: string): (r: Role)
    ensures r.HubRole? <==> IsHub(d, name)
    ensures r.SpokeRole? <==> IsSpoke(d, name)
  {
    if FindHubIn(d.spec.hubs, name).Some? then HubRole
    else if FindAgentIn(d.spec.agents, name).Some? then SpokeRole
    else UnspecifiedRole
  }

  /** A hub that names no endpoint gets the one in the document. */
  function ResolvedEndpoint(d: Document, req: RegisterRequest): (r: string) {
    if ResolveRole(d, req.name).HubRole? && req.endpoint == "" then FindHubIn(d.spec.hubs, req.name).value.endpoint
    else req.endpoint
  }

  /** The row a registration would store, or why it is refused; `id` and `token` come from the random source. */
  function Admit(bootstrap: string, spec: Option<Snapshot>, req: RegisterRequest, id: Option<string>,
                 token: Option<string>, hash: string -> Digest, now: int): (r: Result<Row, Code>)
    ensures r.Ok? <==>
              && req.name != "" && req.publicKey != "" && req.bootstrapToken == bootstrap
              && spec.Some? && Declared(spec.value.doc, req.name)
              && id.Some? && token.Some?
    ensures r.Ok? ==>
              && r.value.name == req.name && r.value.publicKey == req.publicKey
              && r.value.id == id.value && r.value.tokenHash == hash(token.value)
              && r.value.createdAt == r.value.lastSeenAt == now
    ensures r.Ok? && (req.endpoint != "" || IsSpoke(spec.value.doc, req.name)) ==> r.value.endpoint == req.endpoint
    ensures r.Ok? && req.endpoint == "" && IsHub(spec.value.doc, req.name) ==>
              exists h <- spec.value.doc.spec.hubs :: h.name == req.name && h.endpoint == r.value.endpoint
    ensures r.Ok? && StatesHubEndpoints(spec.value.doc) && IsHub(spec.value.doc, req.name) ==> r.value.endpoint != ""
    ensures r == Err(InvalidArgument) <==> req.name == "" || req.publicKey == ""
    ensures r == Err(Unauthenticated) <==> req.name != "" && req.publicKey != "" && req.bootstrapToken != bootstrap
    ensures r == Err(Unavailable) <==>
              req.name != "" && req.publicKey != "" && req.bootstrapToken == bootstrap && spec.None?
    ensures r == Err(PermissionDenied) <==>
              && req.name != "" && req.publicKey != "" && req.bootstrapToken == bootstrap
              && spec.Some? && !Declared(spec.value.doc, req.name)
    ensures r == Err(Internal) <==>
              && req.name != "" && req.publicKey != "" && req.bootstrapToken == bootstrap
              && spec.Some? && Declared(spec.value.doc, req.name) && (id.None? || token.None?)
  {
    if req.name == "" then Err(InvalidArgument)
    else if req.publicKey == "" then Err(InvalidArgument)
    else if req.bootstrapToken != bootstrap then Err(Unauthenticated)
    else if spec.None? then Err(Unavailable)
    else if ResolveRole(spec.value.doc, req.name).UnspecifiedRole? then Err(PermissionDenied)
    else if id.None? || token.None? then Err(Internal)
    else Ok(Row(id.value, req.name, req.publicKey, ResolvedEndpoint(spec.value.doc, req), hash(token.value), now, now))
  }

  /** A hub that names no endpoint is stored with the one of the first hub declared under its name. */
  lemma HubGetsOwnEndpoint(bootstrap: string, d: Document, commit: string, req: RegisterRequest, id: string,
                           token: string, hash: string -> Digest, now: int, i: nat)
    requires req.name != "" && req.publicKey != "" && req.bootstrapToken == bootstrap && req.endpoint == ""
    requires i < |d.spec.hubs| && d.spec.hubs[i].name == req.name
    requires forall j | 0 <= j < i :: d.spec.hubs[j].name != req.name
    ensures Admit(bootstrap, Some(Snapshot(d, commit)), req, Some(id), Some(token), hash, now) ==
            Ok(Row(id, req.name, req.publicKey, d.spec.hubs[i].endpoint, hash(token), now, now))
  {
    FirstHubWins(d.spec.hubs, req.name, i);
  }

  /** Every declared hub states an endpoint, as in every well-formed document. */
  ghost predicate StatesHubEndpoints(d: Document) {
    forall h <- d.spec.hubs :: h.endpoint != ""
  }

  function Info(d: Document, r: Row, callerId: string, endpoint: string): (p: PeerInfo) {
    PeerInfo(r.name, r.publicKey, if r.id == callerId && endpoint != "" then endpoint else r.endpoint,
             TunnelIPOf(d, r.name), r.lastSeenAt, ResolveRole(d, r.name))
  }

  /** The peers a heartbeat returns: declared names only, the caller's own endpoint as just reported. */
  function Visible(d: Document, all: seq<Row>, callerId: string, endpoint: string): (r: seq<PeerInfo>) {
    if all == [] then []
    else
      var before, row := Visible(d, all[..|all| - 1], callerId, endpoint), all[|all| - 1];
      if ResolveRole(d, row.name).UnspecifiedRole? then before else before + [Info(d, row, callerId, endpoint)]
  }

  // ---------- bearer tokens ----------

  /** The two headers a token may come in. */
  datatype Metadata = Metadata(authorization: Option<string>, seineToken: Option<string>)

  predicate IsSpace(c: char) {
    c == ' ' || '\t' <= c <= '\r'
  }

  /** Header values are ASCII, so ASCII white space is all there is to trim. */
  function TrimSpace(s: string): (r: string) {
    if s == "" then ""
    else if IsSpace(s[0]) then TrimSpace(s[1..])
    else if IsSpace(s[|s| - 1]) then TrimSpace(s[..|s| - 1])
    else s
  }

  function Lower(c: char): (r: char) {
    if 'A' <= c <= 'Z' then c - 'A' + 'a' else c
  }

  predicate EqualFold(a: string, b: string) {
    |a| == |b| && forall i | 0 <= i < |a| :: Lower(a[i]) == Lower(b[i])
  }

  /** `tokenFromMetadata`: the bearer header if it carries something, else the other one. */
  function TokenFromMetadata(md: Metadata): (r: Option<string>) {
    if md.authorization.Some? && |md.authorization.value| > 7 && EqualFold(md.authorization.value[..7], "bearer ") then
      Some(TrimSpace(md.authorization.value[7..]))
    else if md.seineToken.Some? then Some(TrimSpace(md.seineToken.value))
    else None
  }

  ghost predicate Blank(s: string) {
    forall c <- s :: IsSpace(c)
  }

  /** White space: blank, tabulators, line and form feeds, carriage return. */
  lemma SpaceMeaning(c: char)
    ensures IsSpace(c) <==> c as int in {32, 9, 10, 11, 12, 13}
  {
  }

  /** Trimming takes white space off both ends and nothing else. */
  lemma {:induction false} TrimSpaceMeaning(s: string) returns (left: string, right: string)
    ensures s == left + TrimSpace(s) + right && Blank(left) && Blank(right)
    ensures TrimSpace(s) != "" ==> !IsSpace(TrimSpace(s)[0]) && !IsSpace(TrimSpace(s)[|TrimSpace(s)| - 1])
  {
    left, right := "", "";
    if s != "" && IsSpace(s[0]) {
      left, right := TrimSpaceMeaning(s[1..]);
      left := [s[0]] + left;
    } else if s != "" && IsSpace(s[|s| - 1]) {
      left, right := TrimSpaceMeaning(s[..|s| - 1]);
      right := right + [s[|s| - 1]];
    }
  }

  /** The bearer scheme may be written in any case; without one the other header is read. */
  lemma HeaderMeaning(scheme: string, token: string, other: Option<string>)
    requires |scheme| == 7 && scheme[6] == ' '
    ensures token != "" && scheme in {"Bearer ", "bearer ", "BEARER "} ==>
              TokenFromMetadata(Metadata(Some(scheme + token), other)) == Some(TrimSpace(token))
    ensures scheme[0] !in {'b', 'B'} || token == "" ==>
              TokenFromMetadata(Metadata(Some(scheme + token), other)) == TokenFromMetadata(Metadata(None, other))
    ensures TokenFromMetadata(Metadata(None, other)) == if other.None? then None else Some(TrimSpace(other.value))
  {
    var v := scheme + token;
    assert v[..7] == scheme && v[7..] == token;
    assert EqualFold("Bearer ", "bearer ") && EqualFold("bearer ", "bearer ") && EqualFold("BEARER ", "bearer ");
    if scheme[0] !in {'b', 'B'} {
      assert Lower(scheme[0]) != Lower("bearer "[0]);
    }
  }

  /** The headers an agent with this token sends. */
  function Bearer(token: string): (md: Metadata) {
    Metadata(Some("Bearer " + token), None)
  }

  /** A token that is not empty and has no white space around it, as every generated one. */
  predicate Bare(token: string) {
    token != "" && !IsSpace(token[0]) && !IsSpace(token[|token| - 1])
  }

  /** The server sees no token exactly when the agent has none, and a bare one just as it was issued. */
  lemma BearerRoundTrip(token: string)
    ensures TokenFromMetadata(Bearer(token)) == if token == "" then None else Some(TrimSpace(token))
    ensures Bare(token) ==> TokenFromMetadata(Bearer(token)) == Some(token)
  {
    var v := "Bearer " + token;
    assert v[..7] == "Bearer " && v[7..] == token;
    assert EqualFold("Bearer ", "bearer ");
  }

  // ---------- the server ----------

  class Server {
    const bootstrap: string
    const hash: string -> Digest
    const store: Store
    var spec: Option<Snapshot>

    constructor (bootstrap: string, hash: string -> Digest, store: Store)
      ensures this.bootstrap == bootstrap && this.hash == hash && this.store == store && spec == None
    {
      this.bootstrap, this.hash, this.store, spec := bootstrap, hash, store, None;
    }

    method Register(req: RegisterRequest, id: Option<string>, token: Option<string>, now: int)
      returns (r: Result<string, Code>)
      requires store.Valid()
      modifies store
      ensures store.Valid()
      ensures var row := Admit(bootstrap, spec, req, id, token, hash, now);
              if row.Err? then r == Err(row.error) && store.rows == old(store.rows)
              else if IdTaken(old(store.rows), row.value) then r == Err(Internal) && store.rows == old(store.rows)
              else r == Ok(token.value) && store.rows == PutRow(old(store.rows), row.value)
    {
      var row := Admit(bootstrap, spec, req, id, token, hash, now);
      if row.Err? {
        return Err(row.error);
      }
      var ok := store.UpsertAgent(row.value);
      if !ok {
        return Err(Internal);
      }
      return Ok(token.value);
    }

    /** `AuthInterceptor`. */
    method Authenticate(md: Metadata) returns (r: Result<Row, Code>)
      requires store.Valid()
      ensures r.Ok? ==> r.value.name in store.rows && store.rows[r.value.name] == r.value
      ensures r.Ok? ==> TokenFromMetadata(md).Some? && r.value.tokenHash == hash(TokenFromMetadata(md).value)
      ensures r.Err? ==> r.error == Unauthenticated
      ensures r.Err? <==> TokenFromMetadata(md).None? ||
                          forall n <- store.rows :: store.rows[n].tokenHash != hash(TokenFromMetadata(md).value)
    {
      var token := TokenFromMetadata(md);
      if token.None? {
        return Err(Unauthenticated);
      }
      var row := store.AuthenticateByTokenHash(hash(token.value));
      if row.None? {
        return Err(Unauthenticated);
      }
      return Ok(row.value);
    }

    /** `Heartbeat`, after authentication as `caller`. */
    method Heartbeat(caller: Row, endpoint: string, now: int) returns (r: Result<HeartbeatResponse, Code>)
      requires store.Valid()
      modifies store
      ensures store.Valid()
      ensures spec.None? ==> r == Err(Unavailable) && store.rows == old(store.rows)
      ensures spec.Some? ==>
                && store.rows == BeatRows(old(store.rows), caller.id, endpoint, now)
                && r.Ok? && r.value.specCommit == spec.value.commit
                && exists all :: Enumerates(all, store.rows) &&
                     r.value.peers == Visible(spec.value.doc, all, caller.id, endpoint)
    {
      if spec.None? {
        return Err(Unavailable);
      }
      var doc := spec.value.doc;
      store.UpdateHeartbeat(caller.id, endpoint, now);
      var all := store.ListAgents();
      var peers := [];
      for i := 0 to |all|
        invariant store.Valid() && store.rows == BeatRows(old(store.rows), caller.id, endpoint, now)
        invariant peers == Visible(doc, all[..i], caller.id, endpoint)
      {
        assert all[..i + 1][..i] == all[..i];
        var a := all[i];
        if ResolveRole(doc, a.name).UnspecifiedRole? {
          continue;
        }
        var ep := a.endpoint;
        if a.id == caller.id && endpoint != "" {
          ep := endpoint;
        }
        peers := peers + [
          PeerInfo(a.name, a.publicKey, ep, TunnelIPOf(doc, a.name), a.lastSeenAt, ResolveRole(doc, a.name))];
      }
      assert all[..|all|] == all;
      return Ok(HeartbeatResponse(spec.value.commit, peers));
    }
  }

  // ---------- what a response says ----------

  lemma {:induction false} VisibleMembers(d: Document, all: seq<Row>, callerId: string, endpoint: string, p: PeerInfo)
    ensures p in Visible(d, all, callerId, endpoint) <==>
            exists r <- all :: Declared(d, r.name) && p == Info(d, r, callerId, endpoint)
  {
    if all != [] {
      var n := |all| - 1;
      var before, row := all[..n], all[n];
      assert all == before + [row];
      VisibleMembers(d, before, callerId, endpoint, p);
      assert p in Visible(d, all, callerId, endpoint) <==>
             || p in Visible(d, before, callerId, endpoint)
             || (Declared(d, row.name) && p == Info(d, row, callerId, endpoint));
    }
  }

  /** Every stored row could have been written by a registration. */
  ghost predicate Registered(rows: map<string, Row>) {
    forall n <- rows :: rows[n].name == n && n != "" && rows[n].publicKey != ""
  }

  /** Indexed by name, a response is exactly the declared part of the table. */
  lemma ResponseMeaning(d: Document, rows: map<string, Row>, all: seq<Row>, callerId: string, endpoint: string)
    requires Enumerates(all, rows) && Registered(rows)
    ensures var m := ByName(Visible(d, all, callerId, endpoint));
            && (forall n :: n in m <==> n in rows && Declared(d, n))
            && (forall n <- m ::
                  && m[n].publicKey == rows[n].publicKey && m[n].lastSeen == rows[n].lastSeenAt
                  && m[n].tunnelIP == TunnelIPOf(d, n) && m[n].role == ResolveRole(d, n)
                  && m[n].endpoint == if rows[n].id == callerId && endpoint != "" then endpoint else rows[n].endpoint)
  {
    var peers := Visible(d, all, callerId, endpoint);
    var m := ByName(peers);
    forall n | n in m
      ensures n in rows && Declared(d, n) && m[n] == Info(d, rows[n], callerId, endpoint)
    {
      VisibleMembers(d, all, callerId, endpoint, m[n]);
    }
    forall n | n in rows && Declared(d, n)
      ensures n in m
    {
      var p := Info(d, rows[n], callerId, endpoint);
      VisibleMembers(d, all, callerId, endpoint, p);
      assert rows[n] in all;
      assert p in peers && Usable(p);
    }
  }

  lemma {:induction false} SameEntries(d: Document, all: seq<Row>, id: string, endpoint: string)
    requires forall r <- all :: r.id == id && endpoint != "" ==> r.endpoint == endpoint
    ensures Visible(d, all, id, endpoint) == Visible(d, all, "", "")
  {
    if all != [] {
      assert all[|all| - 1] in all;
      SameEntries(d, all[..|all| - 1], id, endpoint);
    }
  }

  /** Right after the caller's own update, the endpoint it reported is already what the table says. */
  lemma OverrideIsRedundant(d: Document, rows: map<string, Row>, all: seq<Row>, id: string, endpoint: string, now: int)
    requires Enumerates(all, BeatRows(rows, id, endpoint, now))
    ensures Visible(d, all, id, endpoint) == Visible(d, all, "", "")
  {
    forall r | r in all
      ensures r.id == id && endpoint != "" ==> r.endpoint == endpoint
    {
      assert r == BeatRow(rows[r.name], id, endpoint, now);
    }
    SameEntries(d, all, id, endpoint);
  }
}
