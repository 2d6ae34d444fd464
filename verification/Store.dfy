/**
 The agents table: one row per name, one atomic step per SQL statement, and what a
 row says about the history of statements behind it.
 */
module Store {
  import opened Net
  import opened Sequences

  /** A token digest. */
  datatype Digest = Digest(value: nat)

  /** Times are Unix seconds. */
  datatype Row = Row(
    id: string,
    name: string,
    publicKey: string,
    endpoint: string,
    tokenHash: Digest,
    createdAt: int,
    lastSeenAt: int)

  /** The statements that changed the table. */
  datatype Stmt = Put(row: Row) | Beat(id: string, endpoint: string, when: int)

  // ---------- the statements ----------

  /** Insert, or on a known name replace everything but the creation time. */
  function PutRow(rows: map<string, Row>, r: Row): (out: map<string, Row>) {
    rows[r.name := if r.name in rows then r.(createdAt := rows[r.name].createdAt) else r]
  }

  /** Another name already uses the id, so the primary key rejects the statement. */
  predicate IdTaken(rows: map<string, Row>, r: Row) {
    exists n <- rows :: n != r.name && rows[n].id == r.id
  }

  function BeatRow(r: Row, id: string, endpoint: string, when: int): (out: Row) {
    if r.id != id then r
    else if endpoint == "" then r.(lastSeenAt := when)
    else r.(endpoint := endpoint, lastSeenAt := when)
  }

  function BeatRows(rows: map<string, Row>, id: string, endpoint: string, when: int): (out: map<string, Row>) {
    map n | n in rows :: BeatRow(rows[n], id, endpoint, when)
  }

  function Execute(rows: map<string, Row>, s: Stmt): (out: map<string, Row>) {
    match s
    case Put(r) => PutRow(rows, r)
    case Beat(id, endpoint, when) => BeatRows(rows, id, endpoint, when)
  }

  function Replay(log: seq<Stmt>): (rows: map<string, Row>) {
    if log == [] then map[] else Execute(Replay(log[..|log| - 1]), log[|log| - 1])
  }

  // ---------- the history ----------

  predicate Registers(s: Stmt, name: string) {
    s.Put? && s.row.name == name
  }

  predicate Reports(s: Stmt, id: string) {
    s.Beat? && s.id == id && s.endpoint != ""
  }

  predicate Touches(s: Stmt, id: string) {
    s.Beat? && s.id == id
  }

  /** Position of the last registration of `name`, or -1. */
  ghost function LastPut(log: seq<Stmt>, name: string): (i: int)
    ensures -1 <= i < |log|
    ensures i >= 0 ==> Registers(log[i], name)
    ensures forall j | i < j < |log| :: !Registers(log[j], name)
  {
    if log == [] then -1
    else if Registers(log[|log| - 1], name) then |log| - 1
    else LastPut(log[..|log| - 1], name)
  }

  /** Position of the first registration of `name`, or -1. */
  ghost function FirstPut(log: seq<Stmt>, name: string): (i: int)
    ensures -1 <= i < |log|
    ensures i >= 0 ==> Registers(log[i], name) && forall j | 0 <= j < i :: !Registers(log[j], name)
    ensures i < 0 ==> forall j | 0 <= j < |log| :: !Registers(log[j], name)
  {
    if log == [] then -1
    else
      var i := FirstPut(log[..|log| - 1], name);
      if i >= 0 then i else if Registers(log[|log| - 1], name) then |log| - 1 else -1
  }

  /** Position of the last endpoint reported under `id` after `from`, or -1. */
  ghost function LastReport(log: seq<Stmt>, id: string, from: int): (i: int)
    ensures -1 <= i < |log|
    ensures i >= 0 ==> from < i && Reports(log[i], id)
    ensures forall j | 0 <= j < |log| :: i < j && from < j ==> !Reports(log[j], id)
  {
    if log == [] || |log| - 1 <= from then -1
    else if Reports(log[|log| - 1], id) then |log| - 1
    else LastReport(log[..|log| - 1], id, from)
  }

  /** Position of the last heartbeat under `id` after `from`, or -1. */
  ghost function LastTouch(log: seq<Stmt>, id: string, from: int): (i: int)
    ensures -1 <= i < |log|
    ensures i >= 0 ==> from < i && Touches(log[i], id)
    ensures forall j | 0 <= j < |log| :: i < j && from < j ==> !Touches(log[j], id)
  {
    if log == [] || |log| - 1 <= from then -1
    else if Touches(log[|log| - 1], id) then |log| - 1
    else LastTouch(log[..|log| - 1], id, from)
  }

  /**
   What the history says about a name: identity, key and token of its last registration, creation time
   of its first, and the last endpoint and sighting reported under the current id since then, or else
   those of the registration.
   */
  ghost function RowFromHistory(log: seq<Stmt>, name: string): (r: Row)
    requires LastPut(log, name) >= 0
  {
    var last := LastPut(log, name);
    var now, first := log[last].row, log[FirstPut(log, name)].row;
    var report, touch := LastReport(log, now.id, last), LastTouch(log, now.id, last);
    Row(now.id, name, now.publicKey,
        if report >= 0 then log[report].endpoint else now.endpoint,
        now.tokenHash, first.createdAt,
        if touch >= 0 then log[touch].when else now.lastSeenAt)
  }

  /** The registry refines its history: after any sequence of statements the table is what the history says. */
  lemma {:induction false} ReplayMeaning(log: seq<Stmt>, name: string)
    ensures name in Replay(log) <==> LastPut(log, name) >= 0
    ensures name in Replay(log) ==> Replay(log)[name] == RowFromHistory(log, name)
  {
    if log != [] {
      var before, s := log[..|log| - 1], log[|log| - 1];
      ReplayMeaning(before, name);
      if LastPut(before, name) >= 0 && !Registers(s, name) {
        var last := LastPut(before, name);
        assert before[last] == log[last] && before[FirstPut(before, name)] == log[FirstPut(before, name)];
      }
    }
  }

  // ---------- the store ----------

  /** Names in the order of their characters, as a binary collation has them. */
  predicate NameLess(a: string, b: string) {
    if b == "" then false
    else if a == "" then true
    else a[0] < b[0] || (a[0] == b[0] && NameLess(a[1..], b[1..]))
  }

  lemma {:induction false} NameOrder(a: string, b: string, c: string)
    ensures !NameLess(a, a)
    ensures a == b || NameLess(a, b) || NameLess(b, a)
    ensures NameLess(a, b) && NameLess(b, c) ==> NameLess(a, c)
  {
    if a != "" && b != "" {
      NameOrder(a[1..], b[1..], if c == "" then "" else c[1..]);
      if a[0] == b[0] && a[1..] == b[1..] {
        assert a == [a[0]] + a[1..] && b == [b[0]] + b[1..];
      }
    } else if a != "" {
      NameOrder(a[1..], "", "");
    }
  }

  /** A name comes before another exactly when it is a shorter beginning of it, or smaller where they first differ. */
  lemma {:induction false} NameLessMeaning(a: string, b: string)
    ensures NameLess(a, b) <==>
            exists k: nat | k <= |a| && k < |b| :: a[..k] == b[..k] && (k == |a| || a[k] < b[k])
  {
    if a == "" && b != "" {
      assert a[..0] == b[..0];
    } else if a != "" && b != "" {
      NameLessMeaning(a[1..], b[1..]);
      if a[0] < b[0] {
        assert a[..0] == b[..0];
      } else if NameLess(a, b) {
        var x, y := a[1..], b[1..];
        var k: nat :| k <= |x| && k < |y| && x[..k] == y[..k] && (k == |x| || x[k] < y[k]);
        assert a[..k + 1] == [a[0]] + x[..k] && b[..k + 1] == [b[0]] + y[..k];
      }
      if k: nat :| k <= |a| && k < |b| && a[..k] == b[..k] && (k == |a| || a[k] < b[k]) {
        if k > 0 {
          assert a[0] == a[..k][0] == b[..k][0] == b[0];
          assert a[1..][..k - 1] == a[..k][1..] == b[..k][1..] == b[1..][..k - 1];
        }
      }
    }
  }

  predicate RowLess(a: Row, b: Row) {
    NameLess(a.name, b.name)
  }

  /** On the rows of a table, ordering by name is a total order. */
  lemma RowOrder(s: seq<Row>, rows: map<string, Row>)
    requires forall r <- s :: r.name in rows && rows[r.name] == r
    ensures TotalOrderOn(RowLess, Elements(s))
  {
    forall x, y, z | x in Elements(s) && y in Elements(s) && z in Elements(s)
      ensures !RowLess(x, x) && (x == y || RowLess(x, y) || RowLess(y, x))
      ensures RowLess(x, y) && RowLess(y, z) ==> RowLess(x, z)
    {
      NameOrder(x.name, y.name, z.name);
    }
  }

  /** Every row once, in the order of the names. */
  ghost predicate Enumerates(all: seq<Row>, rows: map<string, Row>) {
    && NoDuplicates(all) && Sorted(all, RowLess)
    && (forall r <- all :: r.name in rows && rows[r.name] == r)
    && (forall n <- rows :: rows[n] in all)
  }

  /** `owners` knows the one name that has each id of the table. */
  ghost predicate OwnIds(rows: map<string, Row>, owners: map<string, string>) {
    forall n <- rows :: rows[n].id in owners && owners[rows[n].id] == n
  }

  lemma PutKeepsOwnIds(rows: map<string, Row>, owners: map<string, string>, r: Row)
    requires OwnIds(rows, owners) && !IdTaken(rows, r)
    ensures OwnIds(PutRow(rows, r), owners[r.id := r.name])
  {
  }

  /** The SQLite-backed table; `log` records the statements that took effect, `owners` who has an id. */
  class Store {
    var rows: map<string, Row>
    ghost var log: seq<Stmt>
    ghost var owners: map<string, string>

    ghost predicate Valid()
      reads this
    {
      && rows == Replay(log)
      && (forall n <- rows :: rows[n].name == n)
      && OwnIds(rows, owners)
    }

    /** Ids are unique, as the primary key demands. */
    lemma IdsAreUnique()
      requires Valid()
      ensures forall m <- rows, n <- rows :: rows[m].id == rows[n].id ==> m == n
    {
    }

    constructor ()
      ensures Valid() && rows == map[] && log == []
    {
      rows, log, owners := map[], [], map[];
    }

    /** `UpsertAgent`; fails when the id belongs to another name. */
    method UpsertAgent(a: Row) returns (ok: bool)
      requires Valid()
      modifies this
      ensures Valid()
      ensures ok <==> !IdTaken(old(rows), a)
      ensures ok ==> rows == PutRow(old(rows), a) && log == old(log) + [Put(a)]
      ensures !ok ==> rows == old(rows) && log == old(log)
    {
      if IdTaken(rows, a) {
        return false;
      }
      PutKeepsOwnIds(rows, owners, a);
      rows := PutRow(rows, a);
      log := log + [Put(a)];
      owners := owners[a.id := a.name];
      assert log[..|log| - 1] == old(log);
      return true;
    }

    /** `AuthenticateByTokenHash`: some row with this digest, if there is one. */
    method AuthenticateByTokenHash(hash: Digest) returns (r: Option<Row>)
      requires Valid()
      ensures r.Some? ==> r.value.name in rows && rows[r.value.name] == r.value && r.value.tokenHash == hash
      ensures r.None? ==> forall n <- rows :: rows[n].tokenHash != hash
    {
      var todo := rows.Keys;
      while todo != {}
        invariant todo <= rows.Keys && forall n <- rows.Keys - todo :: rows[n].tokenHash != hash
        decreases todo
      {
        var n :| n in todo;
        if rows[n].tokenHash == hash {
          return Some(rows[n]);
        }
        todo := todo - {n};
      }
      return None;
    }

    method UpdateHeartbeat(id: string, endpoint: string, when: int)
      requires Valid()
      modifies this
      ensures Valid()
      ensures rows == BeatRows(old(rows), id, endpoint, when) && log == old(log) + [Beat(id, endpoint, when)]
    {
      rows := BeatRows(rows, id, endpoint, when);
      log := log + [Beat(id, endpoint, when)];
      assert log[..|log| - 1] == old(log);
    }

    method ListAgents() returns (out: seq<Row>)
      requires Valid()
      ensures Enumerates(out, rows)
      ensures forall i, j | 0 <= i < j < |out| :: NameLess(out[i].name, out[j].name)
    {
      out := [];
      var todo := rows.Keys;
      while todo != {}
        invariant todo <= rows.Keys && NoDuplicates(out)
        invariant forall r <- out :: r.name in rows.Keys - todo && rows[r.name] == r
        invariant forall n <- rows.Keys - todo :: rows[n] in out
        decreases todo
      {
        var n :| n in todo;
        assert rows[n] !in out;
        out := out + [rows[n]];
        todo := todo - {n};
      }
      RowOrder(out, rows);
      ghost var unsorted := out;
      out := Sort(out, RowLess);
      RearrangementFacts(unsorted, out);
      assert forall r :: r in out <==> r in Elements(out);
      assert forall r :: r in unsorted <==> r in Elements(unsorted);
    }
  }
}
