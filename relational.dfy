/** What `load_data_to_database` (export.py) does to the three tables,
    stated declaratively.  A statement either adds its row or fails without
    changing anything; the loader's transaction then either commits every
    row of the run or, on the first failure, none. */
module Relational {
  import opened Wrappers
  import Dict
  import opened JsonValue

  /** A stored SQLite value: NULL, an INTEGER or a TEXT. */
  datatype Cell = NullCell | IntCell(i: int) | TextCell(s: string)

  /** Why a load fails: a parameter sqlite3 cannot bind (a list or a dict),
      an int wider than SQLite's 64-bit INTEGER, a NOT NULL or FOREIGN KEY
      constraint, or an `items` value `len` refuses (None, a bool, an int). */
  datatype LoadError =
    | Unsupported
    | Overflow
    | NotNull(column: string)
    | ForeignKey
    | NotSized

  const MinInteger: int := -0x8000_0000_0000_0000
  const MaxInteger: int := 0x7FFF_FFFF_FFFF_FFFF

  /** The value a row read back with sqlite3 yields for a cell. */
  function Restore(c: Cell): Json
  {
    match c
    case NullCell => Null
    case IntCell(i) => Int(i)
    case TextCell(s) => Str(s)
  }

  /** sqlite3's parameter binding: `None`, `int` (a `bool` is the int 0 or
      1) and `str` bind; a dict or a list raises, and so does an int outside
      the 64-bit range. */
  function Bind(j: Json): (r: Result<Cell, LoadError>)
    ensures r.Ok? <==> j.Null? || j.Bool? || j.Str? || (j.Int? && MinInteger <= j.i <= MaxInteger)
    ensures r.Ok? ==> Restore(r.value) == if j.Bool? then Int(if j.b then 1 else 0) else j
    ensures r.Ok? ==> (r.value == NullCell <==> j == Null)
    ensures (j.List? || j.Object?) ==> r == Err(Unsupported)
    ensures j.Int? && !(MinInteger <= j.i <= MaxInteger) ==> r == Err(Overflow)
  {
    match j
    case Null => Ok(NullCell)
    case Bool(b) => Ok(IntCell(if b then 1 else 0))
    case Int(i) => if MinInteger <= i <= MaxInteger then Ok(IntCell(i)) else Err(Overflow)
    case Str(s) => Ok(TextCell(s))
    case List(_) => Err(Unsupported)
    case Object(_) => Err(Unsupported)
  }

  /** Binding a parameter tuple, left to right: the first failure is raised. */
  function BindAll(js: seq<Json>): (r: Result<seq<Cell>, LoadError>)
    ensures r.Ok? <==> forall k :: 0 <= k < |js| ==> Bind(js[k]).Ok?
    ensures r.Ok? ==> |r.value| == |js| && forall k :: 0 <= k < |js| ==> Bind(js[k]) == Ok(r.value[k])
    ensures r.Err? ==> exists k :: 0 <= k < |js| && Bind(js[k]) == Err(r.error) &&
                                  forall j :: 0 <= j < k ==> Bind(js[j]).Ok?
  {
    if js == [] then Ok([])
    else
      match Bind(js[0])
      case Err(e) => Err(e)
      case Ok(c) =>
        var rest := BindAll(js[1..]);
        assert forall k :: 1 <= k < |js| ==> js[k] == js[1..][k - 1];
        match rest
        case Err(e) =>
          var k :| 0 <= k < |js[1..]| && Bind(js[1..][k]) == Err(e) && forall j :: 0 <= j < k ==> Bind(js[1..][j]).Ok?;
          assert Bind(js[k + 1]) == Err(e);
          Err(e)
        case Ok(cs) => Ok([c] + cs)
  }

  // ------------------------------------------------------------------
  // The tables

  /** A `requests` row: its id and the seventeen columns `Columns` names. */
  datatype RequestRow = RequestRow(id: int, cells: seq<Cell>)

  /** A `request_headers` or `response_headers` row. */
  datatype HeaderRow = HeaderRow(id: int, requestId: int, name: string, value: Cell)

  /** A header table and its AUTOINCREMENT counter (its `sqlite_sequence`
      entry: the largest id it ever issued, 0 before the first). */
  datatype HeaderStore = HeaderStore(rows: seq<HeaderRow>, last: nat)

  /** The three tables, in insertion order, with their counters.  The
      counters live in a table of their own, so a rollback restores them. */
  datatype Tables = Tables(requests: seq<RequestRow>, lastRequest: nat,
                           requestHeaders: HeaderStore, responseHeaders: HeaderStore)

  datatype HeaderTable = RequestHeaders | ResponseHeaders

  /** The columns of `requests` that the insert names, in its order. */
  const Columns: seq<string> := ["time", "url", "host_value", "host_ip", "port", "protocol", "method",
                                 "path", "extension", "request_value", "request_base64", "status",
                                 "response_length", "mime_type", "response_value", "response_base64",
                                 "comment"]

  function NoTables(): Tables
  {
    Tables([], 0, HeaderStore([], 0), HeaderStore([], 0))
  }

  function Headers(t: Tables, table: HeaderTable): HeaderStore
  {
    if table == RequestHeaders then t.requestHeaders else t.responseHeaders
  }

  function Other(table: HeaderTable): HeaderTable
  {
    if table == RequestHeaders then ResponseHeaders else RequestHeaders
  }

  function WithHeaders(t: Tables, table: HeaderTable, hs: HeaderStore): (r: Tables)
    ensures Headers(r, table) == hs && Headers(r, Other(table)) == Headers(t, Other(table))
    ensures r.requests == t.requests && r.lastRequest == t.lastRequest
  {
    if table == RequestHeaders then t.(requestHeaders := hs) else t.(responseHeaders := hs)
  }

  /** Some `requests` row has this id. */
  predicate HasRequest(requests: seq<RequestRow>, id: int)
  {
    exists i :: 0 <= i < |requests| && requests[i].id == id
  }

  /** `INSERT INTO requests (…) VALUES (?, …)`: bind the parameters, check
      `time` and `url` against NOT NULL, and take the next AUTOINCREMENT id. */
  function InsertRow(t: Tables, params: seq<Json>): (r: Result<(Tables, int), LoadError>)
    requires |params| == |Columns|
    ensures r.Ok? <==> BindAll(params).Ok? && params[0] != Null && params[1] != Null
    ensures BindAll(params).Err? ==> r == Err(BindAll(params).error)
    ensures BindAll(params).Ok? && params[0] == Null ==> r == Err(NotNull("requests.time"))
    ensures BindAll(params).Ok? && params[0] != Null && params[1] == Null ==> r == Err(NotNull("requests.url"))
    ensures r.Ok? ==> r.value.1 == t.lastRequest + 1
    ensures r.Ok? ==> r.value.0 == t.(requests := t.requests + [RequestRow(r.value.1, BindAll(params).value)],
                                       lastRequest := t.lastRequest + 1)
  {
    match BindAll(params)
    case Err(e) => Err(e)
    case Ok(cells) =>
      if cells[0] == NullCell then Err(NotNull("requests.time"))
      else if cells[1] == NullCell then Err(NotNull("requests.url"))
      else
        var id := t.lastRequest + 1;
        Ok((t.(requests := t.requests + [RequestRow(id, cells)], lastRequest := id), id))
  }

  /** `INSERT INTO <table> (request_id, header_name, header_value) VALUES
      (?, ?, ?)`: bind the value, check the foreign key, take the next id. */
  function InsertHeaderRow(t: Tables, table: HeaderTable, requestId: int, name: string, value: Json): (r: Result<Tables, LoadError>)
    ensures r.Ok? <==> Bind(value).Ok? && HasRequest(t.requests, requestId)
    ensures Bind(value).Err? ==> r == Err(Bind(value).error)
    ensures Bind(value).Ok? && !HasRequest(t.requests, requestId) ==> r == Err(ForeignKey)
    ensures r.Ok? ==>
      var hs := Headers(t, table);
      r.value == WithHeaders(t, table, HeaderStore(hs.rows + [HeaderRow(hs.last + 1, requestId, name, Bind(value).value)], hs.last + 1))
  {
    match Bind(value)
    case Err(e) => Err(e)
    case Ok(cell) =>
      if !HasRequest(t.requests, requestId) then Err(ForeignKey)
      else
        var hs := Headers(t, table);
        Ok(WithHeaders(t, table, HeaderStore(hs.rows + [HeaderRow(hs.last + 1, requestId, name, cell)], hs.last + 1)))
  }

  // ------------------------------------------------------------------
  // Reading an item

  /** `item.get(key, default)`. */
  function Lookup(item: Dict.Dict<Json>, key: string, default: Json): Json
  {
    match Dict.Get(item, key)
    case Some(v) => v
    case None => default
  }

  /** `item.get(key)`. */
  function Field(item: Dict.Dict<Json>, key: string): Json
  {
    Lookup(item, key, Null)
  }

  /** `info.get(sub) if isinstance(info, dict) else None` with
      `info = item.get(key, {})`. */
  function Part(item: Dict.Dict<Json>, key: string, sub: string): Json
  {
    match Lookup(item, key, Object(Dict.Empty()))
    case Object(info) => Field(info, sub)
    case _ => Null
  }

  /** `info.get('base64') == 'true' if isinstance(info, dict) else False`
      with `info = item.get(key, {})`. */
  function Flag(item: Dict.Dict<Json>, key: string): Json
  {
    match Lookup(item, key, Object(Dict.Empty()))
    case Object(info) => Bool(Field(info, "base64") == Str("true"))
    case _ => Bool(false)
  }

  /** Where `insert_request` takes a column's value from: `item.get(key)`;
      `info.get(sub)` of `info = item.get(key, {})`; or whether that `info`
      says it is base64 encoded. */
  datatype Source = Plain(key: string) | Inner(key: string, sub: string) | Encoded(key: string)

  /** The source of each of the `Columns`, in the same order. */
  const Sources: seq<Source> := [Plain("time"), Plain("url"), Inner("host", "value"), Inner("host", "ip"),
                                 Plain("port"), Plain("protocol"), Plain("method"), Plain("path"),
                                 Plain("extension"), Inner("request", "value"), Encoded("request"),
                                 Plain("status"), Plain("responselength"), Plain("mimetype"),
                                 Inner("response", "value"), Encoded("response"), Plain("comment")]

  function Extract(item: Dict.Dict<Json>, s: Source): Json
  {
    match s
    case Plain(key) => Field(item, key)
    case Inner(key, sub) => Part(item, key, sub)
    case Encoded(key) => Flag(item, key)
  }

  /** The parameter tuple `insert_request` passes, one value per column. */
  function Parameters(item: Dict.Dict<Json>): (r: seq<Json>)
    ensures |r| == |Columns|
  {
    seq(|Sources|, k requires 0 <= k < |Sources| => Extract(item, Sources[k]))
  }

  /** What `insert_headers` iterates: the items of a non-empty dict; any
      other value (falsy, or not a dict) inserts nothing. */
  function HeaderPairs(headers: Json): seq<(string, Json)>
  {
    if headers.Object? && |headers.fields.keys| != 0 then Dict.Items(headers.fields) else []
  }

  /** `insert_headers`: one row per pair, in order; the first failure stops it. */
  function InsertHeaders(t: Tables, table: HeaderTable, requestId: int, pairs: seq<(string, Json)>): Result<Tables, LoadError>
  {
    if pairs == [] then Ok(t)
    else
      match InsertHeaders(t, table, requestId, pairs[..|pairs| - 1])
      case Err(e) => Err(e)
      case Ok(t1) => InsertHeaderRow(t1, table, requestId, pairs[|pairs| - 1].0, pairs[|pairs| - 1].1)
  }

  /** One turn of the loader's loop: a non-dict is skipped; a dict gets its
      request row, then its request headers, then its response headers. */
  function LoadItem(t: Tables, item: Json): Result<Tables, LoadError>
  {
    if !item.Object? then Ok(t)
    else
      match InsertRow(t, Parameters(item.fields))
      case Err(e) => Err(e)
      case Ok((t1, id)) =>
        match InsertHeaders(t1, RequestHeaders, id, HeaderPairs(Lookup(item.fields, "request_headers", Object(Dict.Empty()))))
        case Err(e) => Err(e)
        case Ok(t2) => InsertHeaders(t2, ResponseHeaders, id, HeaderPairs(Lookup(item.fields, "response_headers", Object(Dict.Empty()))))
  }

  /** The loop over the items: the tables and `inserted_count` after it, or
      the first failure. */
  function LoadItems(t: Tables, items: seq<Json>): Result<(Tables, nat), LoadError>
  {
    if items == [] then Ok((t, 0))
    else Advance(LoadItems(t, items[..|items| - 1]), items[|items| - 1])
  }

  /** The loop so far, followed by one more item. */
  function Advance(sofar: Result<(Tables, nat), LoadError>, item: Json): Result<(Tables, nat), LoadError>
  {
    match sofar
    case Err(e) => Err(e)
    case Ok((t, n)) =>
      match LoadItem(t, item)
      case Err(e) => Err(e)
      case Ok(t') => Ok((t', if item.Object? then n + 1 else n))
  }

  /** `len(items)` followed by `for item in items`: a list gives its
      elements, a string its characters, a dict its keys; `len` of anything
      else raises. */
  function Iterate(j: Json): (r: Result<seq<Json>, LoadError>)
    ensures r.Err? <==> j.Null? || j.Bool? || j.Int?
    ensures j.List? ==> r == Ok(j.elems)
    ensures j.Str? ==> r.Ok? && |r.value| == |j.s| && forall k :: 0 <= k < |j.s| ==> r.value[k] == Str([j.s[k]])
    ensures j.Object? ==> r.Ok? && |r.value| == |j.fields.keys| && forall k :: 0 <= k < |j.fields.keys| ==> r.value[k] == Str(j.fields.keys[k])
  {
    match j
    case List(es) => Ok(es)
    case Str(s) => Ok(seq(|s|, k requires 0 <= k < |s| => Str([s[k]])))
    case Object(d) => Ok(seq(|d.keys|, k requires 0 <= k < |d.keys| => Str(d.keys[k])))
    case _ => Err(NotSized)
  }

  /** `data.get('items', []) if 'items' in data else [data]`. */
  function ItemsOf(data: Dict.Dict<Json>): Result<seq<Json>, LoadError>
  {
    if "items" in data.values then Iterate(data.values["items"]) else Ok([Object(data)])
  }

  /** The whole insertion phase of `load_data_to_database`. */
  function Load(t: Tables, data: Dict.Dict<Json>): Result<(Tables, nat), LoadError>
  {
    match ItemsOf(data)
    case Err(e) => Err(e)
    case Ok(items) => LoadItems(t, items)
  }

  // ------------------------------------------------------------------
  // Properties of the loader

  /** One turn of `insert_headers`' loop. */
  lemma InsertHeadersStep(t: Tables, table: HeaderTable, requestId: int, pairs: seq<(string, Json)>, k: nat)
    requires k < |pairs|
    ensures InsertHeaders(t, table, requestId, pairs[..k + 1]) ==
            match InsertHeaders(t, table, requestId, pairs[..k])
            case Err(e) => Err(e)
            case Ok(t1) => InsertHeaderRow(t1, table, requestId, pairs[k].0, pairs[k].1)
  {
    assert pairs[..k + 1][..k] == pairs[..k];
  }

  /** A failure stops `insert_headers`: the rest of the pairs are not tried. */
  lemma {:induction false} InsertHeadersFails(t: Tables, table: HeaderTable, requestId: int, pairs: seq<(string, Json)>, k: nat)
    requires k <= |pairs| && InsertHeaders(t, table, requestId, pairs[..k]).Err?
    ensures InsertHeaders(t, table, requestId, pairs) == InsertHeaders(t, table, requestId, pairs[..k])
  {
    if k < |pairs| {
      var n := |pairs| - 1;
      assert pairs[..n][..k] == pairs[..k];
      InsertHeadersFails(t, table, requestId, pairs[..n], k);
    } else {
      assert pairs[..k] == pairs;
    }
  }

  /** The rows `insert_headers` adds: one per pair, in order, with
      consecutive fresh ids and the request's id; nothing else changes. */
  lemma {:induction false} InsertHeadersRows(t: Tables, table: HeaderTable, requestId: int, pairs: seq<(string, Json)>)
    requires InsertHeaders(t, table, requestId, pairs).Ok?
    ensures forall k :: 0 <= k < |pairs| ==> Bind(pairs[k].1).Ok?
    ensures var t' := InsertHeaders(t, table, requestId, pairs).value;
            var hs, hs' := Headers(t, table), Headers(t', table);
            t'.requests == t.requests && t'.lastRequest == t.lastRequest &&
            Headers(t', Other(table)) == Headers(t, Other(table)) &&
            |hs'.rows| == |hs.rows| + |pairs| && hs'.rows[..|hs.rows|] == hs.rows &&
            hs'.last == hs.last + |pairs| &&
            forall k :: 0 <= k < |pairs| ==>
              hs'.rows[|hs.rows| + k] == HeaderRow(hs.last + 1 + k, requestId, pairs[k].0, Bind(pairs[k].1).value)
  {
    if pairs != [] {
      var n := |pairs| - 1;
      InsertHeadersRows(t, table, requestId, pairs[..n]);
      var t1 := InsertHeaders(t, table, requestId, pairs[..n]).value;
      var hs, hs1 := Headers(t, table), Headers(t1, table);
      var hs' := Headers(InsertHeaders(t, table, requestId, pairs).value, table);
      assert hs'.rows == hs1.rows + [HeaderRow(hs1.last + 1, requestId, pairs[n].0, Bind(pairs[n].1).value)];
      forall k | 0 <= k < |pairs|
        ensures Bind(pairs[k].1).Ok?
        ensures hs'.rows[|hs.rows| + k] == HeaderRow(hs.last + 1 + k, requestId, pairs[k].0, Bind(pairs[k].1).value)
      {
        if k < n {
          assert pairs[..n][k] == pairs[k];
        }
      }
      assert hs'.rows[..|hs.rows|] == hs1.rows[..|hs.rows|];
    }
  }

  /** For a request that exists, `insert_headers` fails exactly when some
      value cannot be bound, and then with that value's error: never on the
      foreign key. */
  lemma {:induction false} InsertHeadersOutcome(t: Tables, table: HeaderTable, requestId: int, pairs: seq<(string, Json)>)
    requires HasRequest(t.requests, requestId)
    ensures InsertHeaders(t, table, requestId, pairs).Ok? <==> forall k :: 0 <= k < |pairs| ==> Bind(pairs[k].1).Ok?
    ensures InsertHeaders(t, table, requestId, pairs).Err? ==>
              exists k :: 0 <= k < |pairs| && Bind(pairs[k].1) == Err(InsertHeaders(t, table, requestId, pairs).error)
  {
    if pairs != [] {
      var n := |pairs| - 1;
      InsertHeadersOutcome(t, table, requestId, pairs[..n]);
      assert forall k :: 0 <= k < n ==> pairs[..n][k] == pairs[k];
      match InsertHeaders(t, table, requestId, pairs[..n])
      case Err(e) =>
        var k :| 0 <= k < n && Bind(pairs[..n][k].1) == Err(e);
        assert Bind(pairs[k].1) == Err(e);
      case Ok(t1) =>
        InsertHeadersRows(t, table, requestId, pairs[..n]);
        assert t1.requests == t.requests;
    }
  }

  /** The items a successful load can take: every dict checks out, each
      non-dict is skipped. */
  predicate Loadable(item: Json)
  {
    !item.Object? ||
      (var ps := Parameters(item.fields);
       BindAll(ps).Ok? && ps[0] != Null && ps[1] != Null &&
       BindsAll(HeaderPairs(Lookup(item.fields, "request_headers", Object(Dict.Empty())))) &&
       BindsAll(HeaderPairs(Lookup(item.fields, "response_headers", Object(Dict.Empty())))))
  }

  predicate BindsAll(pairs: seq<(string, Json)>)
  {
    forall k :: 0 <= k < |pairs| ==> Bind(pairs[k].1).Ok?
  }

  /** `hs'` is `hs` with rows appended. */
  ghost predicate Appended(hs: HeaderStore, hs': HeaderStore)
  {
    |hs.rows| <= |hs'.rows| && hs'.rows[..|hs.rows|] == hs.rows
  }

  /** `hs'` is `hs` with rows appended that refer to `requestId` and carry
      the ids following the counter, which has moved past them. */
  ghost predicate AppendedFor(hs: HeaderStore, hs': HeaderStore, requestId: int)
  {
    Appended(hs, hs') && hs'.last == hs.last + (|hs'.rows| - |hs.rows|) &&
    forall k :: |hs.rows| <= k < |hs'.rows| ==>
      hs'.rows[k].requestId == requestId && hs'.rows[k].id == hs.last + 1 + (k - |hs.rows|)
  }

  lemma InsertHeadersAppend(t: Tables, table: HeaderTable, requestId: int, pairs: seq<(string, Json)>)
    requires InsertHeaders(t, table, requestId, pairs).Ok?
    ensures var t' := InsertHeaders(t, table, requestId, pairs).value;
            t'.requests == t.requests && t'.lastRequest == t.lastRequest &&
            Headers(t', Other(table)) == Headers(t, Other(table)) &&
            AppendedFor(Headers(t, table), Headers(t', table), requestId)
  {
    InsertHeadersRows(t, table, requestId, pairs);
    var hs, hs' := Headers(t, table), Headers(InsertHeaders(t, table, requestId, pairs).value, table);
    forall k | |hs.rows| <= k < |hs'.rows|
      ensures hs'.rows[k].requestId == requestId && hs'.rows[k].id == hs.last + 1 + (k - |hs.rows|)
    {
      assert hs'.rows[|hs.rows| + (k - |hs.rows|)] == hs'.rows[k];
    }
  }

  /** The rows one item adds: for a dict, its request row with the next id,
      and its headers after the rows already there, tagged with that id;
      anything else leaves the tables as they were. */
  lemma LoadItemRows(t: Tables, item: Json)
    requires LoadItem(t, item).Ok?
    ensures var t' := LoadItem(t, item).value;
            if item.Object? then
              t'.requests == t.requests + [RequestRow(t.lastRequest + 1, BindAll(Parameters(item.fields)).value)] &&
              t'.lastRequest == t.lastRequest + 1 &&
              forall tb :: AppendedFor(Headers(t, tb), Headers(t', tb), t.lastRequest + 1)
            else t' == t
  {
    if item.Object? {
      var (t1, id) := InsertRow(t, Parameters(item.fields)).value;
      var p1 := HeaderPairs(Lookup(item.fields, "request_headers", Object(Dict.Empty())));
      var p2 := HeaderPairs(Lookup(item.fields, "response_headers", Object(Dict.Empty())));
      InsertHeadersAppend(t1, RequestHeaders, id, p1);
      var t2 := InsertHeaders(t1, RequestHeaders, id, p1).value;
      InsertHeadersAppend(t2, ResponseHeaders, id, p2);
      var t3 := InsertHeaders(t2, ResponseHeaders, id, p2).value;
      assert LoadItem(t, item).value == t3;
      assert Headers(t1, RequestHeaders) == Headers(t, RequestHeaders);
      assert Headers(t1, ResponseHeaders) == Headers(t, ResponseHeaders);
      assert Headers(t3, RequestHeaders) == Headers(t2, RequestHeaders);
      assert Headers(t2, ResponseHeaders) == Headers(t1, ResponseHeaders);
    }
  }

  /** One item loads exactly when it is loadable, and never fails on a
      foreign key: its headers refer to the row just inserted. */
  lemma LoadItemOutcome(t: Tables, item: Json)
    ensures LoadItem(t, item).Ok? <==> Loadable(item)
    ensures LoadItem(t, item).Err? ==> LoadItem(t, item).error != ForeignKey
  {
    if item.Object? {
      var ps := Parameters(item.fields);
      if InsertRow(t, ps).Ok? {
        var (t1, id) := InsertRow(t, ps).value;
        assert t1.requests[|t.requests|].id == id;
        assert HasRequest(t1.requests, id);
        var p1 := HeaderPairs(Lookup(item.fields, "request_headers", Object(Dict.Empty())));
        var p2 := HeaderPairs(Lookup(item.fields, "response_headers", Object(Dict.Empty())));
        InsertHeadersOutcome(t1, RequestHeaders, id, p1);
        if InsertHeaders(t1, RequestHeaders, id, p1).Ok? {
          var t2 := InsertHeaders(t1, RequestHeaders, id, p1).value;
          InsertHeadersRows(t1, RequestHeaders, id, p1);
          InsertHeadersOutcome(t2, ResponseHeaders, id, p2);
        }
      } else {
        var e := BindAll(ps);
      }
    }
  }

  /** One turn of the loader's loop. */
  lemma LoadItemsStep(t: Tables, items: seq<Json>, n: nat)
    requires n < |items|
    ensures LoadItems(t, items[..n + 1]) == Advance(LoadItems(t, items[..n]), items[n])
  {
    assert items[..n + 1][..n] == items[..n];
  }

  /** The first failure ends the load: later items are not tried. */
  lemma {:induction false} LoadItemsFails(t: Tables, items: seq<Json>, n: nat)
    requires n <= |items| && LoadItems(t, items[..n]).Err?
    ensures LoadItems(t, items) == LoadItems(t, items[..n])
  {
    if n < |items| {
      var m := |items| - 1;
      assert items[..m][..n] == items[..n];
      LoadItemsFails(t, items[..m], n);
    } else {
      assert items[..n] == items;
    }
  }

  /** A load succeeds exactly when every item is loadable, so whether it
      fails does not depend on what the tables already hold; and it never
      fails on a foreign key. */
  lemma {:induction false} LoadItemsOutcome(t: Tables, items: seq<Json>)
    ensures LoadItems(t, items).Ok? <==> forall i :: 0 <= i < |items| ==> Loadable(items[i])
    ensures LoadItems(t, items).Err? ==> LoadItems(t, items).error != ForeignKey
  {
    if items != [] {
      var n := |items| - 1;
      LoadItemsOutcome(t, items[..n]);
      assert forall i :: 0 <= i < n ==> items[..n][i] == items[i];
      if LoadItems(t, items[..n]).Ok? {
        LoadItemOutcome(LoadItems(t, items[..n]).value.0, items[n]);
      }
    }
  }

  /** How many of the items are dicts. */
  function CountObjects(items: seq<Json>): (r: nat)
    ensures r <= |items|
  {
    if items == [] then 0
    else CountObjects(items[..|items| - 1]) + if items[|items| - 1].Object? then 1 else 0
  }

  /** A successful load reports one insertion per dict and appends exactly
      that many request rows after the existing ones, moving the counter
      on by as many. */
  lemma {:induction false} LoadItemsCount(t: Tables, items: seq<Json>)
    requires LoadItems(t, items).Ok?
    ensures var t', c := LoadItems(t, items).value.0, LoadItems(t, items).value.1;
            c == CountObjects(items) &&
            |t'.requests| == |t.requests| + c && t'.requests[..|t.requests|] == t.requests &&
            t'.lastRequest == t.lastRequest + c
  {
    if items != [] {
      var n := |items| - 1;
      LoadItemsCount(t, items[..n]);
      var t1 := LoadItems(t, items[..n]).value.0;
      LoadItemRows(t1, items[n]);
      var t2 := LoadItem(t1, items[n]).value;
      assert t2.requests[..|t1.requests|] == t1.requests;
      assert t2.requests[..|t.requests|] == t1.requests[..|t.requests|];
    }
  }

  /** The request rows a successful load appends carry the ids following the
      table's counter, consecutively. */
  lemma {:induction false} LoadItemsIds(t: Tables, items: seq<Json>)
    requires LoadItems(t, items).Ok?
    ensures var t' := LoadItems(t, items).value.0;
            |t.requests| <= |t'.requests| &&
            forall i :: |t.requests| <= i < |t'.requests| ==> t'.requests[i].id == t.lastRequest + 1 + (i - |t.requests|)
  {
    if items != [] {
      var n := |items| - 1;
      LoadItemsIds(t, items[..n]);
      LoadItemsCount(t, items[..n]);
      var t1 := LoadItems(t, items[..n]).value.0;
      LoadItemRows(t1, items[n]);
      var t2 := LoadItem(t1, items[n]).value;
      forall i | |t.requests| <= i < |t2.requests| ensures t2.requests[i].id == t.lastRequest + 1 + (i - |t.requests|) {
        if i < |t1.requests| {
          assert t2.requests[i] == t1.requests[i];
        }
      }
    }
  }

  /** A successful load only appends to the header tables. */
  lemma {:induction false} LoadItemsAppendOnly(t: Tables, items: seq<Json>)
    requires LoadItems(t, items).Ok?
    ensures forall tb :: Appended(Headers(t, tb), Headers(LoadItems(t, items).value.0, tb))
  {
    if items != [] {
      var n := |items| - 1;
      LoadItemsAppendOnly(t, items[..n]);
      var t1 := LoadItems(t, items[..n]).value.0;
      LoadItemRows(t1, items[n]);
      var t2 := LoadItem(t1, items[n]).value;
      forall tb ensures Appended(Headers(t, tb), Headers(t2, tb)) {
        var hs, hs1, hs2 := Headers(t, tb), Headers(t1, tb), Headers(t2, tb);
        assert Appended(hs1, hs2);
        assert hs2.rows[..|hs.rows|] == hs2.rows[..|hs1.rows|][..|hs.rows|];
      }
    }
  }

  /** The integrity the schema promises: request ids unique and within the
      counter, and in each header table ids unique, within the counter and
      every row pointing at an existing request. */
  ghost predicate Consistent(t: Tables)
  {
    (forall i :: 0 <= i < |t.requests| ==> t.requests[i].id <= t.lastRequest) &&
    (forall i, j :: 0 <= i < j < |t.requests| ==> t.requests[i].id != t.requests[j].id) &&
    StoreConsistent(t.requestHeaders, t.requests) && StoreConsistent(t.responseHeaders, t.requests)
  }

  ghost predicate StoreConsistent(hs: HeaderStore, requests: seq<RequestRow>)
  {
    (forall i :: 0 <= i < |hs.rows| ==> hs.rows[i].id <= hs.last && HasRequest(requests, hs.rows[i].requestId)) &&
    (forall i, j :: 0 <= i < j < |hs.rows| ==> hs.rows[i].id != hs.rows[j].id)
  }

  lemma NoTablesConsistent()
    ensures Consistent(NoTables())
  {
  }

  lemma StoreStaysConsistent(hs: HeaderStore, hs': HeaderStore, requests: seq<RequestRow>, requests': seq<RequestRow>, id: int)
    requires StoreConsistent(hs, requests) && AppendedFor(hs, hs', id)
    requires |requests| <= |requests'| && requests'[..|requests|] == requests && HasRequest(requests', id)
    ensures StoreConsistent(hs', requests')
  {
    forall i | 0 <= i < |hs'.rows|
      ensures hs'.rows[i].id <= hs'.last && HasRequest(requests', hs'.rows[i].requestId)
    {
      if i < |hs.rows| {
        assert hs'.rows[i] == hs.rows[i];
        var j :| 0 <= j < |requests| && requests[j].id == hs.rows[i].requestId;
        assert requests'[j] == requests[j];
      }
    }
    forall i, j | 0 <= i < j < |hs'.rows| ensures hs'.rows[i].id != hs'.rows[j].id {
      if j < |hs.rows| {
        assert hs'.rows[i] == hs.rows[i] && hs'.rows[j] == hs.rows[j];
      } else if i < |hs.rows| {
        assert hs'.rows[i] == hs.rows[i];
      }
    }
  }

  /** Appending a request row with the next id, and header rows for it,
      keeps the tables consistent. */
  lemma AppendConsistent(t: Tables, t': Tables, cells: seq<Cell>)
    requires Consistent(t)
    requires t'.requests == t.requests + [RequestRow(t.lastRequest + 1, cells)] && t'.lastRequest == t.lastRequest + 1
    requires forall tb :: AppendedFor(Headers(t, tb), Headers(t', tb), t.lastRequest + 1)
    ensures Consistent(t')
  {
    var id := t.lastRequest + 1;
    assert t'.requests[..|t.requests|] == t.requests;
    assert t'.requests[|t.requests|].id == id;
    assert Headers(t, RequestHeaders) == t.requestHeaders && Headers(t', RequestHeaders) == t'.requestHeaders;
    assert Headers(t, ResponseHeaders) == t.responseHeaders && Headers(t', ResponseHeaders) == t'.responseHeaders;
    StoreStaysConsistent(t.requestHeaders, t'.requestHeaders, t.requests, t'.requests, id);
    StoreStaysConsistent(t.responseHeaders, t'.responseHeaders, t.requests, t'.requests, id);
  }

  /** Loading one item keeps the tables consistent. */
  lemma LoadItemConsistent(t: Tables, item: Json)
    requires Consistent(t) && LoadItem(t, item).Ok?
    ensures Consistent(LoadItem(t, item).value)
  {
    LoadItemRows(t, item);
    if item.Object? {
      AppendConsistent(t, LoadItem(t, item).value, BindAll(Parameters(item.fields)).value);
    }
  }

  /** A successful load keeps the tables consistent. */
  lemma {:induction false} LoadItemsConsistent(t: Tables, items: seq<Json>)
    requires Consistent(t) && LoadItems(t, items).Ok?
    ensures Consistent(LoadItems(t, items).value.0)
  {
    if items != [] {
      var n := |items| - 1;
      LoadItemsConsistent(t, items[..n]);
      LoadItemConsistent(LoadItems(t, items[..n]).value.0, items[n]);
    }
  }
}
