/** `burp_utils/query/export.py`: the XML-to-JSON conversion, and the
    loader that writes a converted document into the SQLite database. */
module Export {
  import opened Wrappers
  import Dict
  import opened JsonValue
  import opened Xml
  import opened HttpMessage
  import opened Normalize
  import Splitter
  import Relational
  import opened Store

  /** The exceptions `xml_to_json_data` raises, with their messages. */
  datatype Raised = FileNotFoundError(message: string) | ValueError(message: string) | Exception(message: string)

  /** `xml_to_json_data`: one record per `item` element, built child by child
      in two nested loops; a missing file, an XML syntax error or any other
      failure to read the file is raised. */
  method XmlToJsonData(file: XmlFile, path: string) returns (r: Result<Json, Raised>)
    ensures file.Missing? ==> r == Err(FileNotFoundError("XML file not found: " + path))
    ensures file.Malformed? ==> r == Err(ValueError("Error parsing XML: " + file.diagnostic))
    ensures file.Unreadable? ==> r == Err(Exception("An error occurred during XML parsing: " + file.message))
    ensures file.Parsed? ==> r == Ok(Document(Normalize.Export, Parse, file.root))
  {
    if file.Missing? {
      return Err(FileNotFoundError("XML file not found: " + path));
    }
    if file.Malformed? {
      return Err(ValueError("Error parsing XML: " + file.diagnostic));
    }
    if file.Unreadable? {
      return Err(Exception("An error occurred during XML parsing: " + file.message));
    }
    var root := file.root;
    var elements := FindAll(root.children, "item");
    var items: seq<Json> := [];
    for n := 0 to |elements|
      invariant items == Items(Normalize.Export, Parse, elements[..n])
    {
      var children := elements[n].children;
      var item: Dict.Dict<Json> := Dict.Empty();
      for m := 0 to |children|
        invariant item == Record(Normalize.Export, Parse, children[..m])
      {
        RecordStep(Normalize.Export, Parse, children, m);
        var child := children[m];
        var text := TextOf(child);
        if child.tag == "request" {
          var split := Splitter.ParseHttpRequestResponse(text);
          item := Dict.Put(item, child.tag, MessageRecord(child, split));
          var headers := if split.Some? && |split.value.0.keys| != 0 then Object(StrFields(split.value.0)) else Object(Dict.Empty());
          item := Dict.Put(item, "request_headers", headers);
        } else if child.tag == "response" {
          var split := Splitter.ParseHttpRequestResponse(text);
          item := Dict.Put(item, child.tag, MessageRecord(child, split));
          var headers := if split.Some? && |split.value.0.keys| != 0 then Object(StrFields(split.value.0)) else Object(Dict.Empty());
          item := Dict.Put(item, "response_headers", headers);
        } else if child.tag == "host" {
          item := Dict.Put(item, child.tag, HostRecord(child));
        } else {
          item := Dict.Put(item, child.tag, Str(text));
        }
      }
      assert children[..|children|] == children;
      ItemsStep(Normalize.Export, Parse, elements, n);
      items := items + [Object(item)];
    }
    assert elements[..|elements|] == elements;
    var result := Dict.Put(Dict.Empty(), "items", List(items));
    result := Dict.Put(result, "burpVersion", Str(Attr(root, "burpVersion", "")));
    result := Dict.Put(result, "exportTime", Str(Attr(root, "exportTime", "")));
    r := Ok(Object(result));
  }

  // ------------------------------------------------------------------
  // Loading into the database

  /** `insert_request`: the parameter tuple read off the item, one insert,
      and the new row's id. */
  method InsertRequest(db: Database, item: Dict.Dict<Json>) returns (r: Result<int, Relational.LoadError>)
    requires db.schema
    modifies db`staged
    ensures var expected := Relational.InsertRow(old(db.staged), Relational.Parameters(item));
            (expected.Ok? ==> r == Ok(expected.value.1) && db.staged == expected.value.0) &&
            (expected.Err? ==> r == Err(expected.error) && db.staged == old(db.staged))
  {
    var params := Relational.Parameters(item);
    r := db.AddRequest(params);
  }

  /** `insert_headers`: nothing for a value that is empty or not a dict,
      otherwise one row per header in the dict's order.  On a failing row
      the rows before it stay staged. */
  method InsertHeaders(db: Database, requestId: int, headers: Json, table: Relational.HeaderTable) returns (r: Result<(), Relational.LoadError>)
    requires db.schema
    modifies db`staged
    ensures var pairs := Relational.HeaderPairs(headers);
            var expected := Relational.InsertHeaders(old(db.staged), table, requestId, pairs);
            (expected.Ok? ==> r.Ok? && db.staged == expected.value) &&
            (expected.Err? ==>
               r == Err(expected.error) &&
               exists k :: 0 <= k < |pairs| &&
                 Relational.InsertHeaders(old(db.staged), table, requestId, pairs[..k]) == Ok(db.staged) &&
                 Relational.InsertHeaderRow(db.staged, table, requestId, pairs[k].0, pairs[k].1).Err?)
  {
    if !headers.Object? || |headers.fields.keys| == 0 {
      assert Relational.HeaderPairs(headers) == [];
      return Ok(());
    }
    var pairs := Dict.Items(headers.fields);
    assert pairs == Relational.HeaderPairs(headers);
    for k := 0 to |pairs|
      invariant db.schema
      invariant Relational.InsertHeaders(old(db.staged), table, requestId, pairs[..k]) == Ok(db.staged)
    {
      Relational.InsertHeadersStep(old(db.staged), table, requestId, pairs, k);
      ghost var before := db.staged;
      var added := db.AddHeader(table, requestId, pairs[k].0, pairs[k].1);
      if added.Err? {
        Relational.InsertHeadersFails(old(db.staged), table, requestId, pairs, k + 1);
        assert Relational.InsertHeaders(old(db.staged), table, requestId, pairs[..k]) == Ok(db.staged);
        return Err(added.error);
      }
    }
    assert pairs[..|pairs|] == pairs;
    r := Ok(());
  }

  /** One turn of the loop in `load_data_to_database`: a non-dict is
      skipped; a dict gets its request row and then its request and
      response headers, and the first failure is raised. */
  method InsertItem(db: Database, item: Json) returns (r: Result<(), Relational.LoadError>)
    requires db.schema
    modifies db`staged
    ensures Relational.LoadItem(old(db.staged), item).Ok? ==> r.Ok? && db.staged == Relational.LoadItem(old(db.staged), item).value
    ensures Relational.LoadItem(old(db.staged), item).Err? ==> r == Err(Relational.LoadItem(old(db.staged), item).error)
  {
    if !item.Object? {
      return Ok(());
    }
    var id := InsertRequest(db, item.fields);
    if id.Err? {
      return Err(id.error);
    }
    var done := InsertHeaders(db, id.value, Relational.Lookup(item.fields, "request_headers", Object(Dict.Empty())), Relational.RequestHeaders);
    if done.Err? {
      return done;
    }
    r := InsertHeaders(db, id.value, Relational.Lookup(item.fields, "response_headers", Object(Dict.Empty())), Relational.ResponseHeaders);
  }

  /** `load_data_to_database` once the file is open: the schema is created
      (and stays even if the load fails), the items are inserted in order
      in one transaction, which is committed, or rolled back on the first
      failure.  The result stands for `inserted_count`, which the source
      prints rather than returns. */
  method LoadDataToDatabase(db: Database, data: Dict.Dict<Json>) returns (r: Result<nat, Relational.LoadError>)
    modifies db
    ensures db.schema && db.staged == db.committed
    ensures var expected := Relational.Load(old(db.committed), data);
            (expected.Ok? ==> r == Ok(expected.value.1) && db.committed == expected.value.0) &&
            (expected.Err? ==> r == Err(expected.error) && db.committed == old(db.committed))
  {
    db.Connect();
    db.CreateTables();
    ghost var start := db.staged;
    var items: seq<Json>;
    if "items" in data.values {
      var listed := Relational.Iterate(data.values["items"]);
      if listed.Err? {
        db.Rollback();
        return Err(listed.error);
      }
      items := listed.value;
    } else {
      items := [Object(data)];
    }
    assert Relational.Load(start, data) == Relational.LoadItems(start, items);
    var count: nat := 0;
    for n := 0 to |items|
      invariant db.schema && db.committed == old(db.committed)
      invariant Relational.LoadItems(start, items[..n]) == Ok((db.staged, count))
    {
      Relational.LoadItemsStep(start, items, n);
      var done := InsertItem(db, items[n]);
      if done.Err? {
        Relational.LoadItemsFails(start, items, n + 1);
        db.Rollback();
        return Err(done.error);
      }
      if items[n].Object? {
        count := count + 1;
      }
    }
    assert items[..|items|] == items;
    db.Commit();
    r := Ok(count);
  }
}
