/** The transaction normalizer, stated declaratively: the JSON record that
    `xml_to_json_data` (export.py) and `xml_file_to_json` (burp_convert.py)
    build from a parsed Burp export.  The two differ only in what they
    store as the header map of a message whose split failed. */
module Normalize {
  import opened Wrappers
  import Dict
  import opened JsonValue
  import opened Xml
  import opened HttpMessage

  /** Which copy of the normalizer: export.py stores `{}` for the headers of
      a message whose split failed, burp_convert.py stores `None`. */
  datatype Variant = Export | Convert

  /** The splitter the normalizer applies to the text of each message
      child; the source passes `parse_http_request_response`, modelled by
      `HttpMessage.Parse`.  The record building below holds for any. */
  type Splitter = string -> Option<(Headers, string)>

  /** `{'value': body, 'base64': child.get('base64', 'false')}`, where the
      body is `None` when the split failed. */
  function MessageRecord(e: Element, split: Option<(Headers, string)>): (r: Json)
    ensures r.Object? && r.fields.keys == ["value", "base64"]
    ensures Dict.Get(r.fields, "value") == if split.None? then Some(Null) else Some(Str(split.value.1))
    ensures Dict.Get(r.fields, "base64") == Some(Str(Attr(e, "base64", "false")))
  {
    var value := if split.None? then Null else Str(split.value.1);
    Object(Dict.Put(Dict.Put(Dict.Empty(), "value", value), "base64", Str(Attr(e, "base64", "false"))))
  }

  /** What goes under `request_headers` / `response_headers`. */
  function StoredHeaders(v: Variant, split: Option<(Headers, string)>): (r: Json)
    ensures split.Some? && Dict.Valid(split.value.0) ==> r == Object(StrFields(split.value.0))
    ensures split.None? ==> r == if v == Export then Object(Dict.Empty()) else Null
  {
    match v
    case Export =>
      // `headers if headers else {}`: no headers and a failed split both give `{}`
      if split.Some? && |split.value.0.keys| != 0 then Object(StrFields(split.value.0)) else Object(Dict.Empty())
    case Convert =>
      if split.None? then Null else Object(StrFields(split.value.0))
  }

  /** The key a `request` or `response` child stores its header map under. */
  function HeadersKey(tag: string): string
  {
    if tag == "request" then "request_headers" else "response_headers"
  }

  predicate IsMessage(e: Element)
  {
    e.tag == "request" || e.tag == "response"
  }

  /** `{'value': text, 'ip': child.get('ip', '')}`. */
  function HostRecord(e: Element): (r: Json)
    ensures r.Object? && r.fields.keys == ["value", "ip"]
    ensures Dict.Get(r.fields, "value") == Some(Str(TextOf(e)))
    ensures Dict.Get(r.fields, "ip") == Some(Str(Attr(e, "ip", "")))
  {
    Object(Dict.Put(Dict.Put(Dict.Empty(), "value", Str(TextOf(e))), "ip", Str(Attr(e, "ip", ""))))
  }

  /** What a child stores under its own tag. */
  function TagValue(v: Variant, parse: Splitter, e: Element): Json
  {
    if IsMessage(e) then MessageRecord(e, parse(TextOf(e)))
    else if e.tag == "host" then HostRecord(e)
    else Str(TextOf(e))
  }

  /** The child writes key `k` of the item record. */
  predicate Writes(e: Element, k: string)
  {
    k == e.tag || (IsMessage(e) && k == HeadersKey(e.tag))
  }

  /** One turn of the inner loop: the assignments one child makes to the
      item record, in the order the source makes them. */
  function AddChild(v: Variant, parse: Splitter, item: Dict.Dict<Json>, e: Element): (r: Dict.Dict<Json>)
    ensures Dict.Get(r, e.tag) == Some(TagValue(v, parse, e))
    ensures IsMessage(e) ==> Dict.Get(r, HeadersKey(e.tag)) == Some(StoredHeaders(v, parse(TextOf(e))))
    ensures forall k :: !Writes(e, k) ==> Dict.Get(r, k) == Dict.Get(item, k)
  {
    if IsMessage(e) then
      var split := parse(TextOf(e));
      var r := Dict.Put(item, e.tag, MessageRecord(e, split));
      assert HeadersKey(e.tag) != e.tag;
      Dict.Put(r, HeadersKey(e.tag), StoredHeaders(v, split))
    else
      Dict.Put(item, e.tag, TagValue(v, parse, e))
  }

  /** The record of one `item`: its children added in document order. */
  function Record(v: Variant, parse: Splitter, children: seq<Element>): Dict.Dict<Json>
  {
    if children == [] then Dict.Empty()
    else AddChild(v, parse, Record(v, parse, children[..|children| - 1]), children[|children| - 1])
  }

  /** One record per element, in order. */
  function Items(v: Variant, parse: Splitter, es: seq<Element>): (r: seq<Json>)
    ensures |r| == |es|
    ensures forall i :: 0 <= i < |es| ==> r[i] == Object(Record(v, parse, es[i].children))
  {
    if es == [] then [] else Items(v, parse, es[..|es| - 1]) + [Object(Record(v, parse, es[|es| - 1].children))]
  }

  /** The whole result: the records of the root's direct `item` children and
      the two root attributes, `""` when absent. */
  function Document(v: Variant, parse: Splitter, root: Element): Json
  {
    var items := List(Items(v, parse, FindAll(root.children, "item")));
    var d := Dict.Put(Dict.Empty(), "items", items);
    var d := Dict.Put(d, "burpVersion", Str(Attr(root, "burpVersion", "")));
    Object(Dict.Put(d, "exportTime", Str(Attr(root, "exportTime", ""))))
  }

  // ------------------------------------------------------------------
  // Properties of the normalizer

  /** One turn of the inner loop. */
  lemma RecordStep(v: Variant, parse: Splitter, cs: seq<Element>, m: nat)
    requires m < |cs|
    ensures Record(v, parse, cs[..m + 1]) == AddChild(v, parse, Record(v, parse, cs[..m]), cs[m])
  {
    assert cs[..m + 1][..m] == cs[..m];
  }

  /** One turn of the outer loop. */
  lemma ItemsStep(v: Variant, parse: Splitter, es: seq<Element>, n: nat)
    requires n < |es|
    ensures Items(v, parse, es[..n + 1]) == Items(v, parse, es[..n]) + [Object(Record(v, parse, es[n].children))]
  {
    assert es[..n + 1][..n] == es[..n];
  }

  /** The last child's own assignments, seen through the record. */
  lemma RecordLast(v: Variant, parse: Splitter, cs: seq<Element>)
    requires cs != []
    ensures Dict.Get(Record(v, parse, cs), cs[|cs| - 1].tag) == Some(TagValue(v, parse, cs[|cs| - 1]))
    ensures IsMessage(cs[|cs| - 1]) ==>
              Dict.Get(Record(v, parse, cs), HeadersKey(cs[|cs| - 1].tag)) ==
              Some(StoredHeaders(v, parse(TextOf(cs[|cs| - 1]))))
  {
    var n := |cs| - 1;
    assert Record(v, parse, cs) == AddChild(v, parse, Record(v, parse, cs[..n]), cs[n]);
  }

  /** A key the last child does not write keeps its earlier value. */
  lemma RecordUnchanged(v: Variant, parse: Splitter, cs: seq<Element>, k: string)
    requires cs != [] && !Writes(cs[|cs| - 1], k)
    ensures Dict.Get(Record(v, parse, cs), k) == Dict.Get(Record(v, parse, cs[..|cs| - 1]), k)
  {
    var n := |cs| - 1;
    assert Record(v, parse, cs) == AddChild(v, parse, Record(v, parse, cs[..n]), cs[n]);
  }

  /** A key is in the record exactly when some child writes it. */
  lemma {:induction false} RecordKeys(v: Variant, parse: Splitter, cs: seq<Element>, k: string)
    ensures Dict.Get(Record(v, parse, cs), k).Some? <==> exists i :: 0 <= i < |cs| && Writes(cs[i], k)
  {
    if cs != [] {
      var n := |cs| - 1;
      if Writes(cs[n], k) {
        RecordLast(v, parse, cs);
      } else {
        RecordUnchanged(v, parse, cs, k);
        RecordKeys(v, parse, cs[..n], k);
        if Dict.Get(Record(v, parse, cs[..n]), k).Some? {
          var i :| 0 <= i < n && Writes(cs[..n][i], k);
          assert Writes(cs[i], k);
        }
        if exists i :: 0 <= i < |cs| && Writes(cs[i], k) {
          var i :| 0 <= i < |cs| && Writes(cs[i], k);
          assert i != n;
          assert Writes(cs[..n][i], k);
        }
      }
    }
  }

  /** Children after the last one writing `k` leave `k` alone. */
  lemma {:induction false} RecordAfterLastWrite(v: Variant, parse: Splitter, cs: seq<Element>, i: nat, k: string, m: nat)
    requires i < m <= |cs|
    requires forall j :: i < j < |cs| ==> !Writes(cs[j], k)
    ensures Dict.Get(Record(v, parse, cs[..m]), k) == Dict.Get(Record(v, parse, cs[..i + 1]), k)
  {
    if m > i + 1 {
      RecordAfterLastWrite(v, parse, cs, i, k, m - 1);
      RecordStep(v, parse, cs, m - 1);
      assert !Writes(cs[m - 1], k);
    }
  }

  /** A child's value survives exactly when no later child writes its tag:
      the last child with a given tag wins. */
  lemma LastChildWins(v: Variant, parse: Splitter, cs: seq<Element>, i: nat)
    requires i < |cs|
    requires forall j :: i < j < |cs| ==> !Writes(cs[j], cs[i].tag)
    ensures Dict.Get(Record(v, parse, cs), cs[i].tag) == Some(TagValue(v, parse, cs[i]))
  {
    RecordAfterLastWrite(v, parse, cs, i, cs[i].tag, |cs|);
    assert cs[..|cs|] == cs;
    RecordStep(v, parse, cs, i);
  }

  /** The header map of a message child ends up under `request_headers` /
      `response_headers` unless a later child writes that key. */
  lemma LastHeadersWin(v: Variant, parse: Splitter, cs: seq<Element>, i: nat)
    requires i < |cs| && IsMessage(cs[i])
    requires forall j :: i < j < |cs| ==> !Writes(cs[j], HeadersKey(cs[i].tag))
    ensures Dict.Get(Record(v, parse, cs), HeadersKey(cs[i].tag)) == Some(StoredHeaders(v, parse(TextOf(cs[i]))))
  {
    RecordAfterLastWrite(v, parse, cs, i, HeadersKey(cs[i].tag), |cs|);
    assert cs[..|cs|] == cs;
    RecordStep(v, parse, cs, i);
  }

  /** With the source's splitter, an element without text is split as `""`:
      an empty body and no headers. */
  lemma NoTextMessage(v: Variant, e: Element)
    requires IsMessage(e) && e.text.None?
    ensures TagValue(v, Parse, e) == MessageRecord(e, Some((Dict.Empty(), "")))
    ensures StoredHeaders(v, Parse(TextOf(e))) == Object(Dict.Empty())
  {
    EmptyInput();
  }

  /** The two copies store the same record for a child whose split succeeded. */
  lemma AddChildAgrees(parse: Splitter, item: Dict.Dict<Json>, e: Element)
    requires IsMessage(e) ==> parse(TextOf(e)).Some? && Dict.Valid(parse(TextOf(e)).value.0)
    ensures AddChild(Export, parse, item, e) == AddChild(Convert, parse, item, e)
  {
    if IsMessage(e) {
      var split := parse(TextOf(e));
      assert StoredHeaders(Export, split) == StoredHeaders(Convert, split);
    }
  }

  /** A message child whose split failed: export.py stores `{}`, burp_convert.py `None`. */
  lemma AddChildDiffers(parse: Splitter, item: Dict.Dict<Json>, e: Element)
    requires IsMessage(e) && parse(TextOf(e)).None?
    ensures Dict.Get(AddChild(Export, parse, item, e), HeadersKey(e.tag)) == Some(Object(Dict.Empty()))
    ensures Dict.Get(AddChild(Convert, parse, item, e), HeadersKey(e.tag)) == Some(Null)
  {
  }

  /** Every message child splits, into a header dict of the usual shape. */
  ghost predicate AllSplit(parse: Splitter, cs: seq<Element>)
  {
    forall j :: 0 <= j < |cs| ==> IsMessage(cs[j]) ==>
      parse(TextOf(cs[j])).Some? && Dict.Valid(parse(TextOf(cs[j])).value.0)
  }

  lemma {:induction false} RecordAgrees(parse: Splitter, cs: seq<Element>)
    requires AllSplit(parse, cs)
    ensures Record(Export, parse, cs) == Record(Convert, parse, cs)
  {
    if cs != [] {
      var n := |cs| - 1;
      assert forall j :: 0 <= j < n ==> cs[..n][j] == cs[j];
      RecordAgrees(parse, cs[..n]);
      AddChildAgrees(parse, Record(Export, parse, cs[..n]), cs[n]);
    }
  }

  /** When every message of every item splits, the two copies build the same
      document. */
  lemma DocumentsAgree(parse: Splitter, root: Element)
    requires forall e :: e in FindAll(root.children, "item") ==> AllSplit(parse, e.children)
    ensures Document(Export, parse, root) == Document(Convert, parse, root)
  {
    var es := FindAll(root.children, "item");
    forall i | 0 <= i < |es|
      ensures Record(Export, parse, es[i].children) == Record(Convert, parse, es[i].children)
    {
      RecordAgrees(parse, es[i].children);
    }
    assert Items(Export, parse, es) == Items(Convert, parse, es);
  }

  // ------------------------------------------------------------------
  // The shape of a record

  /** The keys under which a record may hold something other than a string. */
  predicate Reserved(k: string)
  {
    k == "request" || k == "response" || k == "host" || k == "request_headers" || k == "response_headers"
  }

  predicate Scalar(j: Json)
  {
    j.Str? || j.Null?
  }

  /** An object all of whose members are strings or `None`. */
  ghost predicate FlatObject(j: Json)
  {
    j.Object? && forall k :: Dict.Get(j.fields, k).Some? ==> Scalar(Dict.Get(j.fields, k).value)
  }

  /** What a record can hold under `k`: a string, except under a reserved
      key, which may also hold `None` or a flat object. */
  ghost predicate Shaped(k: string, j: Json)
  {
    if Reserved(k) then Scalar(j) || FlatObject(j) else j.Str?
  }

  ghost predicate RecordShaped(item: Dict.Dict<Json>)
  {
    forall k :: Dict.Get(item, k).Some? ==> Shaped(k, Dict.Get(item, k).value)
  }

  lemma AddChildShaped(v: Variant, parse: Splitter, item: Dict.Dict<Json>, e: Element)
    requires RecordShaped(item)
    ensures RecordShaped(AddChild(v, parse, item, e))
  {
    var r := AddChild(v, parse, item, e);
    forall k | Dict.Get(r, k).Some? ensures Shaped(k, Dict.Get(r, k).value) {
      if k == e.tag {
        if IsMessage(e) {
          var m := MessageRecord(e, parse(TextOf(e)));
          forall k' | Dict.Get(m.fields, k').Some? ensures Scalar(Dict.Get(m.fields, k').value) {
            assert k' == "value" || k' == "base64";
          }
        } else if e.tag == "host" {
          var h := HostRecord(e);
          forall k' | Dict.Get(h.fields, k').Some? ensures Scalar(Dict.Get(h.fields, k').value) {
            assert k' == "value" || k' == "ip";
          }
        }
      } else if IsMessage(e) && k == HeadersKey(e.tag) {
        var split := parse(TextOf(e));
        var stored := StoredHeaders(v, split);
        if stored.Object? {
          forall k' | Dict.Get(stored.fields, k').Some? ensures Scalar(Dict.Get(stored.fields, k').value) {
          }
        }
      }
    }
  }

  /** Every record is shaped: plain keys hold strings, and the reserved ones
      strings, `None` or flat objects. */
  lemma {:induction false} RecordIsShaped(v: Variant, parse: Splitter, cs: seq<Element>)
    ensures RecordShaped(Record(v, parse, cs))
  {
    if cs != [] {
      RecordIsShaped(v, parse, cs[..|cs| - 1]);
      AddChildShaped(v, parse, Record(v, parse, cs[..|cs| - 1]), cs[|cs| - 1]);
    }
  }

  /** A plain key is in the record exactly when some child has it as its tag. */
  lemma PlainKey(v: Variant, parse: Splitter, cs: seq<Element>, k: string)
    requires !Reserved(k)
    ensures Dict.Get(Record(v, parse, cs), k).Some? <==> exists i :: 0 <= i < |cs| && cs[i].tag == k
  {
    RecordKeys(v, parse, cs, k);
    assert forall i :: 0 <= i < |cs| ==> (Writes(cs[i], k) <==> cs[i].tag == k);
  }
}
