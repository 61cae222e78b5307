/**
 * The `monitors` table: one row per registered monitor, keyed by an
 * auto-increment id. `TableState` is the table as a value; `MonitorTable` is
 * the mutable store the bot holds, whose methods are the single-row
 * statements the bot issues (INSERT, DELETE ... WHERE id AND user,
 * UPDATE last_state_failed, SELECT).
 */
module Registry {
  import opened Wrappers
  import opened Strings

  /**
   * One row. `kind` is the `type` column; `target` and `port` are nullable
   * text columns, as the chat command stores them.
   */
  datatype Monitor = Monitor(
    id: nat,
    user: string,
    channel: string,
    target: Option<string>,
    kind: string,
    port: Option<string>,
    lastStateFailed: bool)

  /** JavaScript truthiness of a nullable text value. */
  predicate Present(v: Option<string>) {
    v.Some? && v.value != ""
  }

  /** A nullable text value as string concatenation renders it (`null` becomes "null"). */
  function TargetText(v: Option<string>): string {
    if v.Some? then v.value else "null"
  }

  /** The three SELECTs the bot issues. */
  datatype Query = AllMonitors | ByUser(user: string) | ByUserAndChannel(user: string, channel: string)

  predicate Matches(q: Query, m: Monitor) {
    match q
    case AllMonitors => true
    case ByUser(u) => m.user == u
    case ByUserAndChannel(u, c) => m.user == u && m.channel == c
  }

  /** The table: its rows and the next auto-increment id. */
  datatype TableState = TableState(rows: map<nat, Monitor>, nextId: nat)

  /** Every row sits under its own id, and every id is below the counter (ids start at 1). */
  predicate WellFormed(t: TableState) {
    && 1 <= t.nextId
    && forall k :: k in t.rows ==> 1 <= k < t.nextId && t.rows[k].id == k
  }

  /** Matching rows with id below `n`, in ascending id order. */
  function Scan(rows: map<nat, Monitor>, n: nat, q: Query): seq<Monitor>
    decreases n
  {
    if n == 0 then []
    else Scan(rows, n - 1, q) + (if n - 1 in rows && Matches(q, rows[n - 1]) then [rows[n - 1]] else [])
  }

  /** A scan lists exactly the matching rows below `n`, each once, in ascending id order. */
  lemma {:induction false} ScanSpec(rows: map<nat, Monitor>, n: nat, q: Query)
    requires forall k :: k in rows ==> rows[k].id == k
    ensures forall m :: m in Scan(rows, n, q) <==> m.id < n && m.id in rows && rows[m.id] == m && Matches(q, m)
    ensures forall i, j :: 0 <= i < j < |Scan(rows, n, q)| ==> Scan(rows, n, q)[i].id < Scan(rows, n, q)[j].id
    ensures forall i :: 0 <= i < |Scan(rows, n, q)| ==> Scan(rows, n, q)[i].id < n
    decreases n
  {
    if n > 0 {
      ScanSpec(rows, n - 1, q);
      var prev := Scan(rows, n - 1, q);
      var s := Scan(rows, n, q);
      assert s == prev + (if n - 1 in rows && Matches(q, rows[n - 1]) then [rows[n - 1]] else []);
      forall m ensures m in s <==> m.id < n && m.id in rows && rows[m.id] == m && Matches(q, m) {
        if m.id == n - 1 && m.id in rows && rows[m.id] == m && Matches(q, m) {
          assert s[|s| - 1] == m;
        }
      }
    }
  }

  /**
   * The result of a SELECT: exactly the matching rows of the table, each
   * once. Without an ORDER BY SQLite promises no order; the rows are taken
   * to come in ascending id order.
   */
  function Select(t: TableState, q: Query): (r: seq<Monitor>)
    requires WellFormed(t)
    ensures forall m :: m in r <==> m in t.rows.Values && Matches(q, m)
    ensures forall i, j :: 0 <= i < j < |r| ==> r[i].id < r[j].id
  {
    ScanSpec(t.rows, t.nextId, q);
    assert forall m :: m in t.rows.Values <==> m.id in t.rows && t.rows[m.id] == m;
    Scan(t.rows, t.nextId, q)
  }

  /** A SELECT reads the table in id order up to the counter. */
  lemma SelectIsScan(t: TableState, q: Query)
    requires WellFormed(t)
    ensures Select(t, q) == Scan(t.rows, t.nextId, q)
  {
  }

  /** Every row a SELECT returns is the table's row under its id, and every matching row is returned. */
  lemma SelectRows(t: TableState, q: Query)
    requires WellFormed(t)
    ensures forall j :: 0 <= j < |Select(t, q)| ==> Select(t, q)[j].id in t.rows && t.rows[Select(t, q)[j].id] == Select(t, q)[j]
    ensures forall k :: k in t.rows && Matches(q, t.rows[k]) ==> exists j :: 0 <= j < |Select(t, q)| && Select(t, q)[j].id == k
  {
    var r := Select(t, q);
    forall j | 0 <= j < |r| ensures r[j].id in t.rows && t.rows[r[j].id] == r[j] {
      assert r[j] in r;
    }
    forall k | k in t.rows && Matches(q, t.rows[k]) ensures exists j :: 0 <= j < |r| && r[j].id == k {
      assert t.rows[k] in t.rows.Values;
      assert t.rows[k] in r;
    }
  }

  /** A SELECT returns nothing exactly when no row matches. */
  lemma SelectEmpty(t: TableState, q: Query)
    requires WellFormed(t)
    ensures |Select(t, q)| == 0 <==> forall k :: k in t.rows ==> !Matches(q, t.rows[k])
  {
    var r := Select(t, q);
    if |r| > 0 {
      assert r[0] in r;
      assert r[0] in t.rows.Values;
    } else {
      forall k | k in t.rows ensures !Matches(q, t.rows[k]) {
        assert t.rows[k] in t.rows.Values;
        assert t.rows[k] !in r;
      }
    }
  }

  /** INSERT: the new row gets the next id, starts healthy, and no other row changes. */
  function InsertRow(t: TableState, user: string, channel: string, target: Option<string>, kind: string, port: Option<string>): (r: TableState)
    requires WellFormed(t)
    ensures WellFormed(r)
    ensures t.nextId !in t.rows && r.nextId == t.nextId + 1
    ensures r.rows.Keys == t.rows.Keys + {t.nextId}
    ensures r.rows[t.nextId] == Monitor(t.nextId, user, channel, target, kind, port, false)
    ensures forall k :: k in t.rows ==> r.rows[k] == t.rows[k]
  {
    TableState(t.rows[t.nextId := Monitor(t.nextId, user, channel, target, kind, port, false)], t.nextId + 1)
  }

  /**
   * Whether a bound id parameter selects row `k`: SQLite compares the TEXT
   * parameter with the INTEGER id by its numeric value; a missing parameter
   * binds NULL, which equals nothing.
   */
  predicate IdMatches(idText: Option<string>, k: nat) {
    idText.Some? && ParseDecimal(idText.value) == Some(k)
  }

  /** The row `DELETE FROM monitors WHERE id = ? AND user = ?` removes, if any. */
  function DeleteTarget(t: TableState, idText: Option<string>, user: string): Option<nat> {
    if idText.Some? then
      match ParseDecimal(idText.value)
      case Some(k) => if k in t.rows && t.rows[k].user == user then Some(k) else None
      case None => None
    else None
  }

  /**
   * DELETE scoped to id and user: the affected count is 0 or 1, it is 1
   * exactly when a row with that id belongs to that user, only that row goes,
   * and the id counter is untouched (ids are never reused).
   */
  function DeleteRow(t: TableState, idText: Option<string>, user: string): (r: (TableState, nat))
    requires WellFormed(t)
    ensures WellFormed(r.0) && r.0.nextId == t.nextId
    ensures r.1 <= 1
    ensures r.1 == 1 <==> exists k :: k in t.rows && IdMatches(idText, k) && t.rows[k].user == user
    ensures r.1 == |t.rows| - |r.0.rows|
    ensures r.0.rows.Keys <= t.rows.Keys
    ensures forall k :: k in r.0.rows ==> r.0.rows[k] == t.rows[k]
    ensures forall k :: k in t.rows && (t.rows[k].user != user || !IdMatches(idText, k)) ==> k in r.0.rows
  {
    match DeleteTarget(t, idText, user)
    case Some(k) => (TableState(t.rows - {k}, t.nextId), 1)
    case None => (t, 0)
  }

  /** UPDATE of the failure flag of one row; a row that is gone is left gone. */
  function SetFailed(t: TableState, id: nat, failed: bool): (r: TableState)
    requires WellFormed(t)
    ensures WellFormed(r) && r.nextId == t.nextId && r.rows.Keys == t.rows.Keys
    ensures id in t.rows ==> r.rows[id] == t.rows[id].(lastStateFailed := failed)
    ensures forall k :: k in t.rows && k != id ==> r.rows[k] == t.rows[k]
  {
    if id in t.rows then TableState(t.rows[id := t.rows[id].(lastStateFailed := failed)], t.nextId) else t
  }

  /** The table the bot holds (the SQLite database, in memory). */
  class MonitorTable {
    var rows: map<nat, Monitor>
    var nextId: nat

    function State(): TableState
      reads this
    {
      TableState(rows, nextId)
    }

    ghost predicate Valid()
      reads this
    {
      WellFormed(State())
    }

    /** A fresh, empty table. */
    constructor ()
      ensures Valid() && rows == map[] && nextId == 1
    {
      rows := map[];
      nextId := 1;
    }

    /** `INSERT INTO monitors (user, channel, target, type, port) VALUES (...)`. */
    method Insert(user: string, channel: string, target: Option<string>, kind: string, port: Option<string>) returns (id: nat)
      requires Valid()
      modifies this
      ensures Valid()
      ensures id == old(nextId) && id !in old(rows)
      ensures State() == InsertRow(old(State()), user, channel, target, kind, port)
    {
      id := nextId;
      rows := rows[id := Monitor(id, user, channel, target, kind, port, false)];
      nextId := nextId + 1;
    }

    /** `DELETE FROM monitors WHERE id = ? AND user = ?`, returning the affected count. */
    method DeleteByIdAndUser(idText: Option<string>, user: string) returns (changes: nat)
      requires Valid()
      modifies this
      ensures Valid()
      ensures (State(), changes) == DeleteRow(old(State()), idText, user)
    {
      var k := DeleteTarget(State(), idText, user);
      if k.Some? {
        rows := rows - {k.value};
        changes := 1;
      } else {
        changes := 0;
      }
    }

    /** `UPDATE monitors SET last_state_failed = ? WHERE id = ?`. */
    method SetLastStateFailed(id: nat, failed: bool)
      requires Valid()
      modifies this
      ensures Valid()
      ensures State() == SetFailed(old(State()), id, failed)
    {
      if id in rows {
        rows := rows[id := rows[id].(lastStateFailed := failed)];
      }
    }
  }
}
