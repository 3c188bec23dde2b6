/** `burp_utils/query/mcp/db.py`: the query server's registry of open
    databases and the guarded query builder of `run_safe_query`.  Opening a
    database file is outside the model: each operation that may open one is
    told what the attempt yields (`None` for success, or the error text). */
module Db {
  import opened Wrappers
  import opened Text
  import Dict
  import opened JsonValue

  /** `DB_PATH`, the database the server opens at start-up. */
  const DefaultPath: string := "./test.db"

  /** The words a WHERE clause may not contain, in any case. */
  const Dangerous: seq<string> := ["DROP", "DELETE", "INSERT", "UPDATE", "ALTER"]

  const Rejected: string := "WHERE clause contains potentially dangerous keywords"

  /** `min(max(1, limit), 1000)`. */
  function ClampLimit(limit: int): (r: int)
    ensures 1 <= r <= 1000
    ensures 1 <= limit <= 1000 ==> r == limit
    ensures limit < 1 ==> r == 1
    ensures limit > 1000 ==> r == 1000
  {
    if limit < 1 then 1 else if limit > 1000 then 1000 else limit
  }

  /** `any(dangerous in where_clause.upper() for dangerous in [...])`. */
  predicate Flagged(clause: string)
  {
    exists k :: 0 <= k < |Dangerous| && Contains(Upper(clause), Dangerous[k])
  }

  /** The statement `run_safe_query` sends, or the message it raises: a
      present, non-empty clause is screened and then placed between `WHERE`
      and `LIMIT`; an absent or empty one is dropped. */
  function SafeQuery(table: string, limit: int, clause: Option<string>): (r: Result<string, string>)
    ensures r.Err? <==> clause.Some? && clause.value != "" && Flagged(clause.value)
    ensures r.Err? ==> r.error == "Safe query failed: " + Rejected
    ensures r.Ok? && clause.Some? && clause.value != "" ==>
              r.value == "SELECT * FROM " + table + " WHERE " + clause.value + " LIMIT " + Decimal(ClampLimit(limit))
    ensures r.Ok? && (clause.None? || clause.value == "") ==>
              r.value == "SELECT * FROM " + table + " LIMIT " + Decimal(ClampLimit(limit))
  {
    var tail := " LIMIT " + Decimal(ClampLimit(limit));
    if clause.Some? && clause.value != "" then
      if Flagged(clause.value) then Err("Safe query failed: " + Rejected)
      else Ok("SELECT * FROM " + table + " WHERE " + clause.value + tail)
    else Ok("SELECT * FROM " + table + tail)
  }

  predicate EndsWith(s: string, suffix: string)
  {
    |suffix| <= |s| && s[|s| - |suffix|..] == suffix
  }

  lemma EndsWithAppended(a: string, b: string)
    ensures EndsWith(a + b, b) && a <= a + b
  {
    assert (a + b)[|a|..] == b;
  }

  /** A statement built as head, middle and tail starts with the head and
      ends with the tail. */
  lemma Framed(head: string, mid: string, tail: string)
    ensures head <= head + mid + tail && EndsWith(head + mid + tail, tail)
  {
    assert head + mid + tail == head + (mid + tail);
    EndsWithAppended(head, mid + tail);
    EndsWithAppended(head + mid, tail);
  }

  /** Every accepted statement selects from the table and ends with a LIMIT
      whose digits denote a number between 1 and 1000, whatever limit was
      asked for. */
  lemma QueryShape(table: string, limit: int, clause: Option<string>)
    requires SafeQuery(table, limit, clause).Ok?
    ensures "SELECT * FROM " + table <= SafeQuery(table, limit, clause).value
    ensures EndsWith(SafeQuery(table, limit, clause).value, " LIMIT " + Decimal(ClampLimit(limit)))
    ensures exists n :: 1 <= n <= 1000 && DigitsValue(Decimal(n)) == n &&
                        EndsWith(SafeQuery(table, limit, clause).value, " LIMIT " + Decimal(n))
  {
    var stmt := SafeQuery(table, limit, clause).value;
    var n := ClampLimit(limit);
    var head, tail := "SELECT * FROM " + table, " LIMIT " + Decimal(n);
    var mid := if clause.Some? && clause.value != "" then " WHERE " + clause.value else "";
    assert stmt == head + mid + tail;
    Framed(head, mid, tail);
    DecimalValue(n);
  }

  /** Upper-casing keeps an occurrence in place: if `t` occurs in `s`, its
      upper-cased form occurs in the upper-cased `s`. */
  lemma UpperContains(s: string, t: string)
    requires Contains(s, t)
    ensures Contains(Upper(s), Upper(t))
  {
    var i :| 0 <= i <= |s| && OccursAt(s, t, i);
    var u, v := Upper(s), Upper(t);
    forall j | 0 <= j < |t| ensures u[i + j] == v[j] {
      assert s[i + j] == s[i..i + |t|][j];
    }
    assert u[i..i + |t|] == v;
    assert OccursAt(u, v, i);
  }

  /** The screen is case-blind: a clause holding a keyword written in any
      mix of cases is refused. */
  lemma KeywordInAnyCaseRejected(table: string, limit: int, clause: string, k: nat, word: string)
    requires k < |Dangerous| && Upper(word) == Dangerous[k] && Contains(clause, word)
    ensures SafeQuery(table, limit, Some(clause)) == Err("Safe query failed: " + Rejected)
  {
    UpperContains(clause, word);
    assert clause != "" by {
      var i :| 0 <= i <= |clause| && OccursAt(clause, word, i);
      assert |word| == |Dangerous[k]| > 0;
    }
  }

  /** The screen matches substrings, not words: a clause naming a column
      such as `updated_at` is refused too. */
  lemma ColumnNameRejected()
    ensures SafeQuery("requests", 10, Some("updated_at > 0")).Err?
  {
    var clause := "updated_at > 0";
    assert clause[0..6] == "update";
    assert OccursAt(clause, "update", 0);
    var u := Upper("update");
    assert u == Dangerous[3] by {
      forall j | 0 <= j < 6 ensures u[j] == Dangerous[3][j] {
      }
    }
    KeywordInAnyCaseRejected("requests", 10, clause, 3, "update");
  }

  // ------------------------------------------------------------------
  // The registry of open databases

  /** `SQLiteHandler`: an open connection to the file at `path`. */
  class Handler {
    const path: string

    constructor (path: string)
      ensures this.path == path
    {
      this.path := path;
    }
  }

  /** The server's module state: `db_handler`, opened on `DB_PATH`, and
      `db_connections`, one handler per path asked for, in the order the
      paths were first asked for. */
  class Registry {
    const defaultHandler: Handler
    var connections: Dict.Dict<Handler>

    /** Each registered handler is open on the path it is registered under. */
    ghost predicate Valid()
      reads this
    {
      Dict.Valid(connections) && defaultHandler.path == DefaultPath &&
      forall p :: p in connections.values ==> connections.values[p].path == p
    }

    /** Module import: the default handler and no other connection. */
    constructor ()
      ensures Valid() && connections == Dict.Empty()
    {
      defaultHandler := new Handler(DefaultPath);
      connections := Dict.Empty();
    }

    /** `get_db_handler`: the default handler for no path, the registered
        handler for a known path, and otherwise a newly opened one, which is
        registered; a failed open is raised and registers nothing. */
    method GetDbHandler(path: Option<string>, openError: Option<string>) returns (r: Result<Handler, string>)
      requires Valid()
      modifies this`connections
      ensures Valid()
      ensures path.None? ==> r == Ok(defaultHandler) && connections == old(connections)
      ensures path.Some? && path.value in old(connections.values) ==>
                r == Ok(old(connections.values[path.value])) && connections == old(connections)
      ensures path.Some? && path.value !in old(connections.values) && openError.Some? ==>
                r == Err(openError.value) && connections == old(connections)
      ensures path.Some? && path.value !in old(connections.values) && openError.None? ==>
                r.Ok? && fresh(r.value) && r.value.path == path.value &&
                connections == Dict.Put(old(connections), path.value, r.value)
    {
      if path.None? {
        return Ok(defaultHandler);
      }
      var p := path.value;
      if p !in connections.values {
        if openError.Some? {
          return Err(openError.value);
        }
        var h := new Handler(p);
        Dict.PutValid(connections, p, h);
        connections := Dict.Put(connections, p, h);
      }
      r := Ok(connections.values[p]);
    }

    /** `connect_to_database`: open the path afresh and register the new
        handler in place of any earlier one; the reply says which. */
    method ConnectToDatabase(path: string, openError: Option<string>) returns (reply: Dict.Dict<string>)
      requires Valid()
      modifies this`connections
      ensures Valid()
      ensures reply.keys == ["status", "database_path", "message"]
      ensures Dict.Get(reply, "database_path") == Some(path)
      ensures openError.None? ==>
                Dict.Get(reply, "status") == Some("connected") &&
                Dict.Get(reply, "message") == Some("Successfully connected to database at " + path) &&
                path in connections.values && fresh(connections.values[path]) &&
                connections == Dict.Put(old(connections), path, connections.values[path])
      ensures openError.Some? ==>
                Dict.Get(reply, "status") == Some("failed") &&
                Dict.Get(reply, "message") == Some("Failed to connect to database: " + openError.value) &&
                connections == old(connections)
    {
      if openError.None? {
        var h := new Handler(path);
        Dict.PutValid(connections, path, h);
        connections := Dict.Put(connections, path, h);
        reply := Status("connected", path, "Successfully connected to database at " + path);
      } else {
        reply := Status("failed", path, "Failed to connect to database: " + openError.value);
      }
    }

    /** `list_connected_databases`: the default path, every registered path
        in registration order, and the count of both together. */
    method ListConnectedDatabases() returns (r: Json)
      requires Valid()
      ensures r.Object? && r.fields.keys == ["default_database", "additional_connections", "total_connections"]
      ensures Dict.Get(r.fields, "default_database") == Some(Str(DefaultPath))
      ensures Dict.Get(r.fields, "additional_connections") ==
                Some(List(Strs(connections.keys)))
      ensures Dict.Get(r.fields, "total_connections") == Some(Int(|connections.values| + 1))
    {
      KeysCount(connections);
      r := Object(Listing(Strs(connections.keys), |connections.keys| + 1));
    }

    /** `run_safe_query` up to the point where the statement is handed to a
        handler: a refused clause is raised before any handler is looked up,
        so it never opens a database; a failure to open one is raised with
        the same prefix.  On success, the handler and the statement. */
    method RunSafeQuery(table: string, limit: int, clause: Option<string>, path: Option<string>, openError: Option<string>)
      returns (r: Result<(Handler, string), string>)
      requires Valid()
      modifies this`connections
      ensures Valid()
      ensures SafeQuery(table, limit, clause).Err? ==>
                r == Err(SafeQuery(table, limit, clause).error) && connections == old(connections)
      ensures SafeQuery(table, limit, clause).Ok? && path.None? ==>
                r == Ok((defaultHandler, SafeQuery(table, limit, clause).value)) && connections == old(connections)
      ensures SafeQuery(table, limit, clause).Ok? && path.Some? && path.value in old(connections.values) ==>
                r == Ok((old(connections.values[path.value]), SafeQuery(table, limit, clause).value)) &&
                connections == old(connections)
      ensures SafeQuery(table, limit, clause).Ok? && path.Some? && path.value !in old(connections.values) &&
              openError.Some? ==>
                r == Err("Safe query failed: " + openError.value) && connections == old(connections)
      ensures SafeQuery(table, limit, clause).Ok? && path.Some? && path.value !in old(connections.values) &&
              openError.None? ==>
                r.Ok? && r.value.1 == SafeQuery(table, limit, clause).value &&
                fresh(r.value.0) && r.value.0.path == path.value &&
                connections == Dict.Put(old(connections), path.value, r.value.0)
    {
      var sql := SafeQuery(table, limit, clause);
      if sql.Err? {
        return Err(sql.error);
      }
      var handler := GetDbHandler(path, openError);
      if handler.Err? {
        return Err("Safe query failed: " + handler.error);
      }
      r := Ok((handler.value, sql.value));
    }
  }

  /** The paths as JSON strings, in order. */
  function Strs(ps: seq<string>): (r: seq<Json>)
    ensures |r| == |ps| && forall i :: 0 <= i < |ps| ==> r[i] == Str(ps[i])
  {
    if ps == [] then [] else [Str(ps[0])] + Strs(ps[1..])
  }

  /** The reply `list_connected_databases` builds. */
  function Listing(paths: seq<Json>, total: int): (r: Dict.Dict<Json>)
    ensures r.keys == ["default_database", "additional_connections", "total_connections"]
    ensures Dict.Get(r, "default_database") == Some(Str(DefaultPath))
    ensures Dict.Get(r, "additional_connections") == Some(List(paths))
    ensures Dict.Get(r, "total_connections") == Some(Int(total))
  {
    var d := Dict.Put(Dict.Empty(), "default_database", Str(DefaultPath));
    var d := Dict.Put(d, "additional_connections", List(paths));
    Dict.Put(d, "total_connections", Int(total))
  }

  /** The reply `connect_to_database` builds. */
  function Status(status: string, path: string, message: string): (r: Dict.Dict<string>)
    ensures r.keys == ["status", "database_path", "message"]
    ensures Dict.Get(r, "status") == Some(status)
    ensures Dict.Get(r, "database_path") == Some(path)
    ensures Dict.Get(r, "message") == Some(message)
  {
    var d := Dict.Put(Dict.Empty(), "status", status);
    var d := Dict.Put(d, "database_path", path);
    Dict.Put(d, "message", message)
  }

  /** A well-formed dict has as many keys as entries. */
  lemma {:induction false} KeysCount<V>(d: Dict.Dict<V>)
    requires Dict.Valid(d)
    ensures |d.values| == |d.keys|
  {
    KeysCardinality(d.keys, d.values.Keys);
  }

  lemma {:induction false} KeysCardinality(ks: seq<string>, s: set<string>)
    requires forall i, j :: 0 <= i < j < |ks| ==> ks[i] != ks[j]
    requires forall k :: k in s <==> k in ks
    ensures |s| == |ks|
  {
    if ks != [] {
      var n := |ks| - 1;
      var last := ks[n];
      assert forall k :: k in s - {last} <==> k in ks[..n] by {
        forall k ensures k in s - {last} <==> k in ks[..n] {
          if k in ks[..n] {
            var i :| 0 <= i < n && ks[..n][i] == k;
            assert ks[i] != ks[n];
          }
          if k in ks && k != last {
            var i :| 0 <= i < |ks| && ks[i] == k;
            assert i != n;
            assert ks[..n][i] == k;
          }
        }
      }
      KeysCardinality(ks[..n], s - {last});
    }
  }
}
