/** `burp_utils/burp_convert.py`: the standalone XML-to-JSON converter.  Its
    splitter is the same as export.py's (`Splitter`); this is the record
    building and the error strings it returns instead of raising. */
module BurpConvert {
  import opened Wrappers
  import Dict
  import opened JsonValue
  import opened Xml
  import opened HttpMessage
  import opened Normalize
  import Splitter

  /** `xml_file_to_json`: the same nested loops as export.py, except that a
      failed split stores `None` as the header map; a missing file, an XML
      syntax error or any other failure to read the file comes back as a
      message.  `Ok` carries the document that
      `json.dumps` serializes. */
  method XmlFileToJson(file: XmlFile, path: string) returns (r: Result<Json, string>)
    ensures file.Missing? ==> r == Err("Error: File not found at '" + path + "'")
    ensures file.Malformed? ==> r == Err("Error parsing XML: " + file.diagnostic)
    ensures file.Unreadable? ==> r == Err("An error occurred: " + file.message)
    ensures file.Parsed? ==> r == Ok(Document(Convert, Parse, file.root))
  {
    if file.Missing? {
      return Err("Error: File not found at '" + path + "'");
    }
    if file.Malformed? {
      return Err("Error parsing XML: " + file.diagnostic);
    }
    if file.Unreadable? {
      return Err("An error occurred: " + file.message);
    }
    var root := file.root;
    var elements := FindAll(root.children, "item");
    var items: seq<Json> := [];
    for n := 0 to |elements|
      invariant items == Items(Convert, Parse, elements[..n])
    {
      var children := elements[n].children;
      var item: Dict.Dict<Json> := Dict.Empty();
      for m := 0 to |children|
        invariant item == Record(Convert, Parse, children[..m])
      {
        RecordStep(Convert, Parse, children, m);
        var child := children[m];
        var text := TextOf(child);
        if child.tag == "request" {
          var split := Splitter.ParseHttpRequestResponse(text);
          item := Dict.Put(item, child.tag, MessageRecord(child, split));
          var headers := if split.None? then Null else Object(StrFields(split.value.0));
          item := Dict.Put(item, "request_headers", headers);
        } else if child.tag == "response" {
          var split := Splitter.ParseHttpRequestResponse(text);
          item := Dict.Put(item, child.tag, MessageRecord(child, split));
          var headers := if split.None? then Null else Object(StrFields(split.value.0));
          item := Dict.Put(item, "response_headers", headers);
        } else if child.tag == "host" {
          item := Dict.Put(item, child.tag, HostRecord(child));
        } else {
          item := Dict.Put(item, child.tag, Str(text));
        }
      }
      assert children[..|children|] == children;
      ItemsStep(Convert, Parse, elements, n);
      items := items + [Object(item)];
    }
    assert elements[..|elements|] == elements;
    var result := Dict.Put(Dict.Empty(), "items", List(items));
    result := Dict.Put(result, "burpVersion", Str(Attr(root, "burpVersion", "")));
    result := Dict.Put(result, "exportTime", Str(Attr(root, "exportTime", "")));
    r := Ok(Object(result));
  }
}
