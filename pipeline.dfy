/** `export_xml_to_database` (export.py): the converter's output handed to
    the loader.  What the normalizer can store decides what the loader can
    reject: of all its failure modes, only a missing `time` or `url` can
    occur. */
module Pipeline {
  import opened Wrappers
  import Dict
  import opened JsonValue
  import opened Xml
  import opened Normalize
  import Relational
  import Export
  import opened Store

  lemma FieldPlain(item: Dict.Dict<Json>, key: string)
    requires RecordShaped(item) && !Reserved(key)
    ensures Relational.Field(item, key).Str? || Relational.Field(item, key).Null?
    ensures Relational.Field(item, key).Null? <==> Dict.Get(item, key).None?
  {
  }

  lemma PartScalar(item: Dict.Dict<Json>, key: string, sub: string)
    requires RecordShaped(item) && Reserved(key)
    ensures Scalar(Relational.Part(item, key, sub))
  {
    var info := Relational.Lookup(item, key, Object(Dict.Empty()));
    if Dict.Get(item, key).Some? {
      assert Shaped(key, Dict.Get(item, key).value);
    }
    if info.Object? {
      assert FlatObject(info);
      assert Dict.Get(info.fields, sub).Some? ==> Scalar(Dict.Get(info.fields, sub).value);
    }
  }

  /** The keys read directly from an item are never the ones the
      normalizer stores as dicts, and the others always are. */
  lemma SourceKeys()
    ensures forall k :: 0 <= k < |Relational.Sources| ==>
              (Relational.Sources[k].Plain? <==> !Reserved(Relational.Sources[k].key))
  {
    forall k | 0 <= k < |Relational.Sources|
      ensures Relational.Sources[k].Plain? <==> !Reserved(Relational.Sources[k].key)
    {
      if k == 0 {
      } else if k == 1 {
      } else if k == 2 {
      } else if k == 3 {
      } else if k == 4 {
      } else if k == 5 {
      } else if k == 6 {
      } else if k == 7 {
      } else if k == 8 {
      } else if k == 9 {
      } else if k == 10 {
      } else if k == 11 {
      } else if k == 12 {
      } else if k == 13 {
      } else if k == 14 {
      } else if k == 15 {
      } else {
      }
    }
  }

  /** Every value of the parameter tuple of a shaped item can be bound. */
  lemma ParametersBind(item: Dict.Dict<Json>)
    requires RecordShaped(item)
    ensures Relational.BindAll(Relational.Parameters(item)).Ok?
  {
    SourceKeys();
    var ps := Relational.Parameters(item);
    forall k | 0 <= k < |ps| ensures Relational.Bind(ps[k]).Ok? {
      var s := Relational.Sources[k];
      match s
      case Plain(key) => FieldPlain(item, key);
      case Inner(key, sub) => PartScalar(item, key, sub);
      case Encoded(_) =>
    }
  }

  /** The header values of a shaped item can all be bound. */
  lemma HeadersBind(item: Dict.Dict<Json>, key: string)
    requires RecordShaped(item) && Reserved(key)
    ensures Relational.BindsAll(Relational.HeaderPairs(Relational.Lookup(item, key, Object(Dict.Empty()))))
  {
    var h := Relational.Lookup(item, key, Object(Dict.Empty()));
    if Dict.Get(item, key).Some? {
      assert Shaped(key, Dict.Get(item, key).value);
    }
    var pairs := Relational.HeaderPairs(h);
    if pairs != [] {
      assert FlatObject(h);
      forall k | 0 <= k < |pairs| ensures Relational.Bind(pairs[k].1).Ok? {
        assert Dict.Get(h.fields, pairs[k].0) == Some(pairs[k].1);
      }
    }
  }

  /** A shaped item loads exactly when it has a `time` and a `url`. */
  lemma ShapedLoadable(item: Dict.Dict<Json>)
    requires RecordShaped(item)
    ensures Relational.Loadable(Object(item)) <==> Dict.Get(item, "time").Some? && Dict.Get(item, "url").Some?
  {
    ParametersBind(item);
    assert Relational.Sources[0] == Relational.Plain("time") && Relational.Sources[1] == Relational.Plain("url");
    FieldPlain(item, "time");
    FieldPlain(item, "url");
    HeadersBind(item, "request_headers");
    HeadersBind(item, "response_headers");
  }

  /** The element has a direct child with this tag. */
  predicate HasChild(e: Element, tag: string)
  {
    exists i :: 0 <= i < |e.children| && e.children[i].tag == tag
  }

  lemma CountAllObjects(items: seq<Json>)
    requires forall i :: 0 <= i < |items| ==> items[i].Object?
    ensures Relational.CountObjects(items) == |items|
  {
    if items != [] {
      CountAllObjects(items[..|items| - 1]);
    }
  }

  /** Loading a converted document: its `items` list is what the loader
      iterates. */
  lemma DocumentItems(t: Relational.Tables, v: Variant, parse: Splitter, root: Element)
    ensures Document(v, parse, root).Object?
    ensures Relational.Load(t, Document(v, parse, root).fields) ==
            Relational.LoadItems(t, Items(v, parse, FindAll(root.children, "item")))
  {
    var d := Document(v, parse, root).fields;
    assert Dict.Get(d, "items") == Some(List(Items(v, parse, FindAll(root.children, "item"))));
  }

  /** The record of one `item` element loads exactly when the element has a
      `time` and a `url` child. */
  lemma ElementLoadable(v: Variant, parse: Splitter, e: Element)
    ensures Relational.Loadable(Object(Record(v, parse, e.children))) <==> HasChild(e, "time") && HasChild(e, "url")
  {
    RecordIsShaped(v, parse, e.children);
    ShapedLoadable(Record(v, parse, e.children));
    PlainKey(v, parse, e.children, "time");
    PlainKey(v, parse, e.children, "url");
  }

  /** Whatever the tables hold, the records of a list of `item` elements
      load exactly when every element has a `time` and a `url` child. */
  lemma ElementsLoad(t: Relational.Tables, v: Variant, parse: Splitter, es: seq<Element>)
    ensures Relational.LoadItems(t, Items(v, parse, es)).Ok? <==>
            forall i :: 0 <= i < |es| ==> HasChild(es[i], "time") && HasChild(es[i], "url")
  {
    var items := Items(v, parse, es);
    Relational.LoadItemsOutcome(t, items);
    forall i | 0 <= i < |items|
      ensures Relational.Loadable(items[i]) <==> HasChild(es[i], "time") && HasChild(es[i], "url")
    {
      ElementLoadable(v, parse, es[i]);
    }
  }

  /** A successful load of the records of a list of elements inserts one
      request per element. */
  lemma ElementsCount(t: Relational.Tables, v: Variant, parse: Splitter, es: seq<Element>)
    requires Relational.LoadItems(t, Items(v, parse, es)).Ok?
    ensures Relational.LoadItems(t, Items(v, parse, es)).value.1 == |es|
  {
    Relational.LoadItemsCount(t, Items(v, parse, es));
    CountAllObjects(Items(v, parse, es));
  }

  /** Whatever the tables hold, a converted document loads exactly when
      every `item` element has a `time` and a `url` child, and then one
      request is inserted per `item` element. */
  lemma DocumentLoads(t: Relational.Tables, v: Variant, parse: Splitter, root: Element)
    ensures Document(v, parse, root).Object?
    ensures var es := FindAll(root.children, "item");
            Relational.Load(t, Document(v, parse, root).fields).Ok? <==>
              forall i :: 0 <= i < |es| ==> HasChild(es[i], "time") && HasChild(es[i], "url")
    ensures Relational.Load(t, Document(v, parse, root).fields).Ok? ==>
              Relational.Load(t, Document(v, parse, root).fields).value.1 == |FindAll(root.children, "item")|
  {
    var es := FindAll(root.children, "item");
    DocumentItems(t, v, parse, root);
    ElementsLoad(t, v, parse, es);
    if Relational.LoadItems(t, Items(v, parse, es)).Ok? {
      ElementsCount(t, v, parse, es);
    }
  }

  // ------------------------------------------------------------------
  // The whole export

  /** What `export_xml_to_database` raises: the conversion's exception, or
      the loader's, each wrapped with a message saying which step failed. */
  datatype ExportFailure = ConvertFailed(message: string) | LoadFailed(cause: Relational.LoadError)

  /** `export_xml_to_database`: convert, then load.  A file that cannot be
      converted leaves the database alone; one that can loads exactly when
      every `item` element has a `time` and a `url`, and then one request
      per `item` is committed.  The result stands for the count the loader
      prints; the source returns nothing. */
  method ExportXmlToDatabase(file: XmlFile, xmlPath: string, db: Database) returns (r: Result<nat, ExportFailure>)
    modifies db
    ensures file.Missing? ==>
              r == Err(ConvertFailed("Failed to convert XML to JSON: " + ("XML file not found: " + xmlPath))) &&
              db.committed == old(db.committed)
    ensures file.Malformed? ==>
              r == Err(ConvertFailed("Failed to convert XML to JSON: " + ("Error parsing XML: " + file.diagnostic))) &&
              db.committed == old(db.committed)
    ensures file.Unreadable? ==>
              r == Err(ConvertFailed("Failed to convert XML to JSON: " +
                                     ("An error occurred during XML parsing: " + file.message))) &&
              db.committed == old(db.committed)
    ensures file.Parsed? ==>
              var es := FindAll(file.root.children, "item");
              (r.Ok? <==> forall i :: 0 <= i < |es| ==> HasChild(es[i], "time") && HasChild(es[i], "url")) &&
              (r.Ok? ==> r.value == |es| &&
                         Relational.Load(old(db.committed), Document(Normalize.Export, HttpMessage.Parse, file.root).fields) ==
                           Ok((db.committed, r.value))) &&
              (r.Err? ==> r.error.LoadFailed? && db.committed == old(db.committed))
  {
    var converted := Export.XmlToJsonData(file, xmlPath);
    if converted.Err? {
      return Err(ConvertFailed("Failed to convert XML to JSON: " + converted.error.message));
    }
    DocumentLoads(db.committed, Normalize.Export, HttpMessage.Parse, file.root);
    var loaded := Export.LoadDataToDatabase(db, converted.value.fields);
    if loaded.Err? {
      return Err(LoadFailed(loaded.error));
    }
    r := Ok(loaded.value);
  }
}
