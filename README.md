# Burp export pipeline, modelled in Dafny

This project models the capture-export pipeline of the `burp_utils` scripts and proves properties of it. The pipeline has three steps:

- A Burp Suite XML export, already parsed into an element tree, is normalized into a JSON-like document: one record per `item` element.
- Each base64-encoded raw HTTP request or response inside a record is split into a header dict and a re-encoded body.
- The document is loaded into a SQLite database of three tables (`requests`, `request_headers`, `response_headers`) in a single transaction.

It also models the query server's `run_safe_query` guard and its registry of open databases.

The modules follow the source:

- **Splitting a message** (`parse_http_request_response`). `HttpMessage` states it as a function over the decoded lines. `Splitter.ParseHttpRequestResponse` is the loop the source runs, with its mode flag and two accumulators, and it is proved equal to that function. The function is defined twice with the same body, in `burp_utils/query/export.py:25-62` and in `burp_utils/burp_convert.py:9-46`; one method models both, so the two copies agree on every input by construction.
- **Codecs and string operations.** `Base64` follows RFC 4648, section 4. `Utf8` is the strict codec. `Text` holds the few Python `str` operations used.
- **Normalizing.** `Normalize` states the record building for both copies of the normalizer. A `Variant` says whether a failed split stores `{}` (export.py) or `None` (burp_convert.py). `Export.XmlToJsonData` and `BurpConvert.XmlFileToJson` are the nested loops the source runs, proved against `Normalize.Document`.
- **Loading.** `Relational` states what the loader does to the three tables, one statement at a time:
  - AUTOINCREMENT counters;
  - the NOT NULL and FOREIGN KEY constraints;
  - sqlite3's parameter binding.

  `Store.Database` is the connection as a class: what is committed on disk, what the open transaction has staged, and whether the schema exists. `Export.InsertRequest`, `Export.InsertHeaders` and `Export.LoadDataToDatabase` are the source's procedures over that class.
- **The whole export.** `Pipeline` relates normalizing and loading: a converted document loads exactly when every `item` has a `time` and a `url` child. `Pipeline.ExportXmlToDatabase` is `export_xml_to_database`.
- **The query server.** `Db` holds the limit clamp, the keyword screen and the statement builder of `run_safe_query`, plus the `SQLiteHandler` registry as a class.

Python dicts are modelled by `Dict`: the keys in insertion order plus the mapping. Assigning to an existing key keeps its position and replaces its value, which fixes the order of header rows.

Inputs the model takes as parameters:

- The XML file is given as what opening and parsing it yields: `Missing`, `Malformed(diagnostic)` for a syntax error, `Unreadable(message)` for any other failure of the parse (a directory, a file that cannot be read), or `Parsed(root)`.
- In `Db`, opening a database file is given as its outcome: `None` for success, or the error text.

Two behaviours of the code are worth stating, since a reader might expect otherwise:

- When a split fails, the code stores `value: None` in the `request`/`response` record, not an empty body.
- When a split fails in export.py, the stored header map is `{}`, so `insert_headers` inserts no header row for that message.

## Model

| member | source | states |
|---|---|---|
| Text.SplitLines | burp_utils/query/export.py:39 | no line contains a line break; the text is empty exactly when there are no lines |
| Text.IsLineBreak | burp_utils/query/export.py:39 | defines the characters `splitlines()` breaks at |
| Text.IsSpace | burp_utils/query/export.py:45 | defines the characters Python's `strip()` removes as whitespace |
| Text.IsBlank | burp_utils/query/export.py:45 | defines a blank line: `not line.strip()` holds exactly when every character is whitespace |
| Text.Find | burp_utils/query/export.py:50 | the first occurrence of the separator at or after the start, or none at all |
| Text.SplitFirst | burp_utils/query/export.py:50-51 | `None` exactly when the separator does not occur; otherwise the name and value joined by the separator give the line back, and the name holds no earlier occurrence |
| Text.Join | burp_utils/query/export.py:54-57 | joining no parts gives `""`; joining one part gives that part |
| Text.RStrip | burp_utils/query/export.py:57 | the result is a prefix that does not end in the character, and everything removed is that character |
| Text.RStripOne | burp_utils/query/export.py:57 | stripping undoes exactly one appended character when the text did not already end in it |
| Text.Upper | burp_utils/query/mcp/db.py:236 | same length; each ASCII lower-case letter becomes its upper-case form and every other character is kept |
| Text.Decimal | burp_utils/query/mcp/db.py:238-240 | the rendering of the limit is a non-empty string of digits |
| Text.DecimalValue | burp_utils/query/mcp/db.py:238-240 | reading the rendering back as a decimal number gives the number itself |
| Text.DigitsValue | burp_utils/query/mcp/db.py:238-240 | defines the number a string of decimal digits denotes |
| Dict.Empty | burp_utils/query/export.py:40 | `{}` has no keys and the shape of a dict |
| Dict.Get | burp_utils/query/export.py:211 | `None` exactly when the key is absent, otherwise the stored value |
| Dict.Put | burp_utils/query/export.py:52 | the key now maps to the new value and other keys are unchanged; an existing key keeps its position and a new key goes last |
| Dict.PutValid | burp_utils/query/export.py:52 | assignment keeps every key unique and the key order equal to the mapping's keys |
| Dict.Items | burp_utils/query/export.py:263 | `items()` lists each key in insertion order with its value |
| JsonValue.StrFields | burp_utils/query/export.py:90 | a header dict as a JSON object: same keys in the same order, each value as a string |
| Xml.Attr | burp_utils/query/export.py:89 | `get(name, default)` gives the attribute when present and the default otherwise |
| Xml.FindAll | burp_utils/query/export.py:83 | `findall('item')` keeps exactly the direct children with the tag: an element is kept if and only if it is a child with that tag |
| Xml.FindAllAppend | burp_utils/query/export.py:83 | `findall` keeps document order: the kept children of a concatenation are those of the first part followed by those of the second |
| Xml.TextOf | burp_utils/query/export.py:86 | defines a child's text: its text, or `""` when it has none |
| Base64.SextetChar | burp_utils/query/export.py:57 | every 6-bit value has an alphabet character that decodes back to it, and it is never the pad character |
| Base64.SextetValue | burp_utils/query/export.py:38 | a decoded character is a 6-bit value |
| Base64.Encode | burp_utils/query/export.py:57 | the encoding is four characters per started group of three bytes, and non-empty for non-empty input |
| Base64.GroupRoundTrip | burp_utils/query/export.py:38 | decoding an encoded three-byte group gives the three bytes |
| Base64.OneByteRoundTrip | burp_utils/query/export.py:38 | decoding the `==`-padded encoding of one byte gives it back |
| Base64.TwoByteRoundTrip | burp_utils/query/export.py:38 | decoding the `=`-padded encoding of two bytes gives them back |
| Base64.DecodeEncode | burp_utils/query/export.py:38 | decoding undoes encoding for every byte string |
| Base64.TestVectorsShort | burp_utils/query/export.py:57 | the RFC 4648 section 10 vectors for "", "f", "fo" and "foo" |
| Base64.TestVectorFoob | burp_utils/query/export.py:57 | the RFC 4648 section 10 vector for "foob" |
| Base64.TestVectorFooba | burp_utils/query/export.py:57 | the RFC 4648 section 10 vector for "fooba" |
| Base64.TestVectorFoobar | burp_utils/query/export.py:57 | the RFC 4648 section 10 vector for "foobar" |
| Base64.Decode | burp_utils/query/export.py:38 | defines strict base64 decoding, `None` where `b64decode` raises; its partner is `Base64.DecodeEncode` |
| Utf8.EncodeChar | burp_utils/query/export.py:57 | every character takes one to four bytes |
| Utf8.Encode | burp_utils/query/export.py:57 | the encoding takes between one and four bytes per character |
| Utf8.DecodeFirst | burp_utils/query/export.py:38 | a decoded sequence takes at least one byte and no more bytes than are there |
| Utf8.DecodeFirstOfEncodeChar | burp_utils/query/export.py:38 | the first character decoded from an encoded character is that character, using exactly its bytes |
| Utf8.DecodeEncode | burp_utils/query/export.py:38 | decoding undoes encoding for every string |
| Utf8.Decode | burp_utils/query/export.py:38 | defines strict UTF-8 decoding, `None` where `decode('utf-8')` raises; its partner is `Utf8.DecodeEncode` |
| HttpMessage.FirstBlank | burp_utils/query/export.py:45-47 | the index of the line that ends the headers: it is blank (or the end), and no earlier line is |
| HttpMessage.NonBlank | burp_utils/query/export.py:44-47 | every kept line is non-blank and one of the input lines |
| HttpMessage.Accumulated | burp_utils/query/export.py:54 | the body accumulator is empty exactly when there are no body lines |
| HttpMessage.ScanIsScanned | burp_utils/query/export.py:44-54 | after any prefix of lines, the loop's flag says whether a blank line was seen; the headers are those collected from the lines before it; the accumulator holds the non-blank lines after it |
| HttpMessage.ScanDone | burp_utils/query/export.py:56-59 | the loop's final state gives the result: the headers as collected, and the accumulator stripped of its last newline and re-encoded, or `""` when it is empty |
| HttpMessage.CollectIsLastValue | burp_utils/query/export.py:49-52 | the header dict gives each name the value of the last header line naming it |
| HttpMessage.LastValueIsLastSetting | burp_utils/query/export.py:52 | that value is exactly the one some line sets with no later line naming the same header |
| HttpMessage.HeaderLastWins | burp_utils/query/export.py:49-52 | a name maps to a value exactly when some header line sets it and no later line names it: a repeated name keeps its last value |
| HttpMessage.LastValueAbsent | burp_utils/query/export.py:50 | no value exactly when no line names the header |
| HttpMessage.HeaderAbsent | burp_utils/query/export.py:49-52 | a name is absent exactly when no header line names it |
| HttpMessage.NoBlankLine | burp_utils/query/export.py:44-52 | with no blank line after line 0, every later line is a header candidate and the body is empty |
| HttpMessage.StartLineIgnored | burp_utils/query/export.py:44 | line 0 never affects the headers or the body, whatever it holds |
| HttpMessage.AccumulatedIsJoin | burp_utils/query/export.py:54 | the accumulator is the body lines joined by `"\n"` plus one final newline |
| HttpMessage.AccumulatedBody | burp_utils/query/export.py:57 | `rstrip('\n')` removes exactly that final newline, leaving the body lines joined by `"\n"` |
| HttpMessage.JoinedBodyNonEmpty | burp_utils/query/export.py:56 | a body with a line never joins to `""` |
| HttpMessage.BodyRoundTrip | burp_utils/query/export.py:41-57 | the re-encoded body is `""` exactly when no non-blank line follows a blank line; otherwise it decodes to the non-blank body lines joined by `"\n"`, with no trailing newline |
| HttpMessage.CollectValid | burp_utils/query/export.py:52 | the header dict holds each name once |
| HttpMessage.ParseValid | burp_utils/query/export.py:40-52 | a successful split returns a dict that holds each name once |
| HttpMessage.EmptyInput | burp_utils/query/export.py:86 | an element with no text is split as `""` and gives no headers and an empty body |
| HttpMessage.SplitText | burp_utils/query/export.py:39-59 | defines the split of decoded text: the headers collected before the first blank line after line 0, and the re-encoded body after it |
| HttpMessage.Parse | burp_utils/query/export.py:25-62 | defines the whole split: `None` when the input is not base64 or not UTF-8, otherwise the split of the decoded text; the rows above state its properties |
| Splitter.ParseHttpRequestResponse | burp_utils/query/export.py:25-62 | the line loop returns exactly the declarative split, `None` standing for `(None, None)` on bad base64 or UTF-8; the same body is burp_convert.py:9-46 |
| Normalize.MessageRecord | burp_utils/query/export.py:89 | a message record is `{value, base64}`, where `value` is the body, or `None` when the split failed, and `base64` defaults to `"false"` |
| Normalize.StoredHeaders | burp_utils/query/export.py:90 | the stored header map is the split's dict; on a failed split it is `{}` in export.py and `None` in burp_convert.py |
| Normalize.HostRecord | burp_utils/query/export.py:96 | a host record is `{value: text, ip}` with `ip` defaulting to `""` |
| Normalize.AddChild | burp_utils/query/export.py:85-98 | a child sets its tag's value, a message child also sets its header key, and every other key is unchanged |
| Normalize.Items | burp_utils/query/export.py:83-100 | one record per element, in order, each built from that element's children |
| Normalize.RecordStep | burp_utils/query/export.py:85-98 | one turn of the inner loop adds the next child to the record |
| Normalize.ItemsStep | burp_utils/query/export.py:83-100 | one turn of the outer loop appends the next record |
| Normalize.RecordLast | burp_utils/query/export.py:85-98 | the last child's own assignments are what the record holds under its keys |
| Normalize.RecordUnchanged | burp_utils/query/export.py:85-98 | a key the last child does not write keeps its earlier value |
| Normalize.RecordKeys | burp_utils/query/export.py:84-98 | a key is in the record exactly when some child writes it |
| Normalize.RecordAfterLastWrite | burp_utils/query/export.py:85-98 | children after the last one writing a key leave that key alone |
| Normalize.LastChildWins | burp_utils/query/export.py:85-98 | a child's value survives exactly when no later child writes its tag: a later child with the same tag overwrites an earlier one |
| Normalize.LastHeadersWin | burp_utils/query/export.py:87-94 | a message child's header map is what ends up under `request_headers`/`response_headers` unless a later child writes that key |
| Normalize.NoTextMessage | burp_utils/query/export.py:86-94 | a message child without text stores an empty body and `{}` as its headers |
| Normalize.AddChildAgrees | burp_utils/burp_convert.py:70-81 | the two normalizers make the same assignments for a child whose split succeeded |
| Normalize.AddChildDiffers | burp_utils/burp_convert.py:73 | on a failed split export.py stores `{}` and burp_convert.py stores `None` as the header map |
| Normalize.RecordAgrees | burp_utils/burp_convert.py:67-81 | when every message of an item splits, both normalizers build the same record |
| Normalize.DocumentsAgree | burp_utils/burp_convert.py:66-89 | when every message splits, both normalizers build the same document |
| Normalize.AddChildShaped | burp_utils/query/export.py:85-98 | adding a child keeps plain keys holding strings, and the reserved keys strings, `None` or flat dicts |
| Normalize.RecordIsShaped | burp_utils/query/export.py:84-98 | every record has that shape |
| Normalize.PlainKey | burp_utils/query/export.py:97-98 | a plain key is in the record exactly when some child has it as its tag |
| Normalize.Record | burp_utils/query/export.py:84-98 | defines an item's record: its children added one by one in document order |
| Normalize.Document | burp_utils/query/export.py:80-108 | defines the whole result: the records of the root's `item` children, and `burpVersion` and `exportTime` defaulting to `""` |
| Export.XmlToJsonData | burp_utils/query/export.py:65-113 | a missing file raises `FileNotFoundError("XML file not found: …")`; malformed XML raises `ValueError("Error parsing XML: …")`; any other failure of the parse raises `Exception("An error occurred during XML parsing: …")`; otherwise the nested loops build exactly the normalized document with `{}` for failed splits |
| BurpConvert.XmlFileToJson | burp_utils/burp_convert.py:48-96 | a missing file returns `"Error: File not found at '…'"`; malformed XML returns `"Error parsing XML: …"`; any other failure of the parse returns `"An error occurred: …"`; otherwise the loops build exactly the normalized document with `None` for failed splits |
| Relational.Bind | burp_utils/query/export.py:234-252 | `None`, booleans, strings and 64-bit ints bind, and what is read back equals what was bound (a bool as 0 or 1); a list or dict is refused as unsupported, and a wider int as an overflow |
| Relational.BindAll | burp_utils/query/export.py:234-252 | a tuple binds exactly when every value does, element by element; otherwise the error is that of the first value that fails |
| Relational.InsertRow | burp_utils/query/export.py:228-254 | the insert succeeds exactly when every parameter binds and `time` and `url` are not `None`; otherwise it fails with that error; it appends one row whose id follows the counter and returns that id as `lastrowid` |
| Relational.InsertHeaderRow | burp_utils/query/export.py:264-267 | a header insert succeeds exactly when the value binds and the request id exists; otherwise it fails with the bind error or a FOREIGN KEY error; it appends one row with the next id of its own table |
| Relational.Parameters | burp_utils/query/export.py:211-252 | one parameter per named column |
| Relational.Lookup | burp_utils/query/export.py:211 | defines `item.get(key, default)` |
| Relational.Field | burp_utils/query/export.py:235-251 | defines `item.get(key)`, `None` when the key is absent |
| Relational.Part | burp_utils/query/export.py:211-222 | defines `info.get(sub)` of a sub-record, `None` when the record is not a dict |
| Relational.Flag | burp_utils/query/export.py:218-223 | defines the `base64` flag: `info.get('base64') == 'true'` for a dict, `False` otherwise |
| Relational.Extract | burp_utils/query/export.py:234-252 | defines one column's value from the item, by where that column comes from |
| Relational.HeaderPairs | burp_utils/query/export.py:259-263 | defines what `insert_headers` iterates: the items of a non-empty dict, nothing otherwise |
| Relational.InsertHeaders | burp_utils/query/export.py:263-267 | defines the header loop: one insert per pair, in order, stopping at the first failure |
| Relational.LoadItem | burp_utils/query/export.py:305-320 | defines one turn of the loader: a non-dict is skipped; a dict inserts its request, then its request headers, then its response headers |
| Relational.LoadItems | burp_utils/query/export.py:302-322 | defines the loader's loop: the tables and `inserted_count` after all items, or the first failure |
| Relational.ItemsOf | burp_utils/query/export.py:299 | defines `data.get('items', []) if 'items' in data else [data]`, iterated as `len` and `for` see it |
| Relational.Load | burp_utils/query/export.py:299-322 | defines the whole insertion phase: the item list, then the loop over it |
| Relational.Iterate | burp_utils/query/export.py:299-305 | iterating `items`: a list gives its elements, a string its characters, a dict its keys; `len` raises exactly for `None`, a bool or an int |
| Relational.InsertHeadersStep | burp_utils/query/export.py:263-267 | one turn of the header loop inserts the next pair, unless an earlier insert already failed |
| Relational.InsertHeadersFails | burp_utils/query/export.py:263-267 | once a header insert fails, the later pairs are not tried |
| Relational.InsertHeadersRows | burp_utils/query/export.py:263-267 | a successful header loop appends one row per pair, in dict order, with consecutive fresh ids and the request's id, and changes nothing else |
| Relational.InsertHeadersOutcome | burp_utils/query/export.py:172 | for an existing request, the header loop fails exactly when some value does not bind, and then with that value's error and never on the foreign key |
| Relational.InsertHeadersAppend | burp_utils/query/export.py:263-267 | the header loop only appends rows for the request to its own table |
| Relational.LoadItemRows | burp_utils/query/export.py:305-322 | a dict item adds its request row with the next id and header rows tagged with that id after those already there; a non-dict item changes nothing |
| Relational.LoadItemOutcome | burp_utils/query/export.py:305-322 | one item loads exactly when it is loadable (every value binds, `time` and `url` are present), and never fails on a foreign key |
| Relational.LoadItemsStep | burp_utils/query/export.py:305-322 | one turn of the loader's loop loads the next item onto the result so far |
| Relational.LoadItemsFails | burp_utils/query/export.py:333-336 | the first failure ends the load: later items are not tried |
| Relational.LoadItemsOutcome | burp_utils/query/export.py:305-322 | a load succeeds exactly when every item is loadable, whatever the tables already hold, and never fails on a foreign key |
| Relational.CountObjects | burp_utils/query/export.py:305-322 | the dict items are at most all the items |
| Relational.LoadItemsCount | burp_utils/query/export.py:302-322 | a successful load reports `inserted_count` equal to the number of dict items; it appends exactly that many request rows after the existing ones and moves the counter on by as many |
| Relational.LoadItemsIds | burp_utils/query/export.py:142 | the request rows a load appends carry consecutive ids following the counter |
| Relational.LoadItemsAppendOnly | burp_utils/query/export.py:305-322 | a load only appends to the header tables |
| Relational.NoTablesConsistent | burp_utils/query/export.py:140-186 | fresh tables satisfy the schema's keys and foreign keys |
| Relational.StoreStaysConsistent | burp_utils/query/export.py:172 | header rows appended for an existing request keep the header table consistent with the grown requests table |
| Relational.AppendConsistent | burp_utils/query/export.py:140-186 | a request row with the next id, plus header rows pointing at it, keeps the tables consistent |
| Relational.LoadItemConsistent | burp_utils/query/export.py:305-322 | loading one item keeps ids unique and within their counters, and every header row pointing at an existing request |
| Relational.LoadItemsConsistent | burp_utils/query/export.py:305-322 | a successful load keeps the tables consistent |
| Store.Database.constructor | burp_utils/query/export.py:120-130 | a fresh database file has empty tables and no schema |
| Store.Database.Connect | burp_utils/query/export.py:283 | a new connection sees what is committed |
| Store.Database.CreateTables | burp_utils/query/export.py:134-204 | after the DDL the schema exists |
| Store.Database.AddRequest | burp_utils/query/export.py:228-254 | the `requests` insert stages exactly what `InsertRow` says, and a failing insert stages nothing |
| Store.Database.AddHeader | burp_utils/query/export.py:264-267 | the header insert stages exactly what `InsertHeaderRow` says, and a failing insert stages nothing |
| Store.Database.Commit | burp_utils/query/export.py:325 | commit writes what is staged |
| Store.Database.Rollback | burp_utils/query/export.py:334 | rollback drops the open transaction |
| Export.InsertRequest | burp_utils/query/export.py:207-254 | stages the row for the item's parameter tuple and returns its id, or fails and stages nothing |
| Export.InsertHeaders | burp_utils/query/export.py:257-267 | a value that is empty or not a dict inserts nothing; otherwise one row per header in dict order; on failure the rows before the failing one stay staged |
| Export.InsertItem | burp_utils/query/export.py:305-320 | one turn of the loader's loop: skips a non-dict, otherwise inserts the request and then its request and response headers, as the declarative load of one item says |
| Export.LoadDataToDatabase | burp_utils/query/export.py:270-338 | the schema is created and survives any failure; on success every row of the run is committed and the result is `inserted_count`, the count the source prints; on failure nothing from the run is committed and the error is re-raised |
| Pipeline.FieldPlain | burp_utils/query/export.py:235-251 | a plain key of a normalized record holds a string, or nothing, which binds as `None` |
| Pipeline.PartScalar | burp_utils/query/export.py:211-222 | a sub-record value of a normalized record is a string or `None` |
| Pipeline.SourceKeys | burp_utils/query/export.py:211-252 | the columns read straight from the item use exactly the keys the normalizer never stores as dicts |
| Pipeline.ParametersBind | burp_utils/query/export.py:234-252 | every parameter tuple of a normalized record binds |
| Pipeline.HeadersBind | burp_utils/query/export.py:259-267 | every header value of a normalized record binds |
| Pipeline.ShapedLoadable | burp_utils/query/export.py:143-144 | a normalized record loads exactly when it has a `time` and a `url` |
| Pipeline.CountAllObjects | burp_utils/query/export.py:322 | when every item is a dict, all of them are counted |
| Pipeline.DocumentItems | burp_utils/query/export.py:299 | loading a converted document iterates its `items` list |
| Pipeline.ElementLoadable | burp_utils/query/export.py:143-144 | the record of an `item` element loads exactly when the element has a `time` and a `url` child |
| Pipeline.ElementsLoad | burp_utils/query/export.py:305-322 | the records of a list of elements load exactly when every element has a `time` and a `url` child |
| Pipeline.ElementsCount | burp_utils/query/export.py:322 | a successful load of those records inserts one request per element |
| Pipeline.DocumentLoads | burp_utils/query/export.py:355-370 | whatever the tables hold, a converted document loads exactly when every `item` has a `time` and a `url` child, and then one request is inserted per `item` |
| Pipeline.ExportXmlToDatabase | burp_utils/query/export.py:345-370 | each of the three conversion failures is raised as "Failed to convert XML to JSON: …" and leaves the database alone; otherwise the export succeeds exactly when every `item` has a `time` and a `url`, commits one request per `item`, and on failure commits nothing and reports it as a load failure |
| Db.ClampLimit | burp_utils/query/mcp/db.py:231 | the limit is always within 1..1000, unchanged when already in range, and clamped to the nearer end otherwise |
| Db.Flagged | burp_utils/query/mcp/db.py:236 | defines the screen: the upper-cased clause contains one of DROP, DELETE, INSERT, UPDATE or ALTER |
| Db.SafeQuery | burp_utils/query/mcp/db.py:229-245 | refused exactly when a non-empty clause's upper-cased text contains DROP, DELETE, INSERT, UPDATE or ALTER, with the prefixed message; otherwise `SELECT * FROM <t> WHERE <w> LIMIT <n>`, or `SELECT * FROM <t> LIMIT <n>` when the clause is absent or empty |
| Db.QueryShape | burp_utils/query/mcp/db.py:238-240 | every accepted statement selects from the table and ends with a LIMIT whose digits denote the clamped limit, a number between 1 and 1000 |
| Db.UpperContains | burp_utils/query/mcp/db.py:236 | upper-casing keeps an occurrence in place |
| Db.KeywordInAnyCaseRejected | burp_utils/query/mcp/db.py:236-237 | a clause holding a listed keyword in any mix of cases is refused |
| Db.ColumnNameRejected | burp_utils/query/mcp/db.py:236 | the screen matches substrings, so a clause naming `updated_at` is refused |
| Db.Handler.constructor | burp_utils/query/mcp/db.py:7-8 | a handler is open on the path it was created for |
| Db.Registry.constructor | burp_utils/query/mcp/db.py:62-66 | at start-up there is the default handler and an empty registry |
| Db.Registry.GetDbHandler | burp_utils/query/mcp/db.py:68-76 | no path gives the default handler; a known path gives its registered handler; a new path opens and registers a handler, appended last, leaving the other entries unchanged; a failed open registers nothing |
| Db.Registry.ConnectToDatabase | burp_utils/query/mcp/db.py:78-106 | a successful open replaces any entry for the path with a new handler and replies "connected"; a failed one changes nothing and replies "failed" with the error |
| Db.Registry.ListConnectedDatabases | burp_utils/query/mcp/db.py:247-261 | the default path, every registered path in registration order, and a total of registry size + 1 |
| Db.Registry.RunSafeQuery | burp_utils/query/mcp/db.py:215-245 | a refused clause is raised before any handler lookup and registers nothing; otherwise the statement comes back with the handler `get_db_handler` gives: the default one for no path, the registered one for a known path (registry unchanged), or a new one opened on a new path and registered last; a failure to open is raised with the "Safe query failed: " prefix and registers nothing |
| Db.Strs | burp_utils/query/mcp/db.py:258 | the registered paths as JSON strings, in order |
| Db.Listing | burp_utils/query/mcp/db.py:256-260 | the reply's three keys in order, with their values |
| Db.Status | burp_utils/query/mcp/db.py:96-106 | the reply's three keys in order, with their values |
| Db.KeysCount | burp_utils/query/mcp/db.py:259 | a registry holds as many entries as it lists paths |

## Left out

- Base64.Decode: decodes strictly, by section 4 of RFC 4648. Python's `b64decode` silently discards characters outside the alphabet before decoding; input that it accepts only by discarding characters is rejected here instead.
- Db.SafeQuery: `str.upper()` is modelled on ASCII letters only, so the screen is weaker than Python's on the few non-ASCII characters that Python upper-cases to ASCII letters (dotless `ı` to `I`, long `ſ` to `S`, and ligatures such as `ﬅ`).
- Db.Registry.RunSafeQuery: stops where the statement is handed to the handler, returning that handler and the statement. Running the query and the SQLite errors it can raise are not modelled.
- Store.Database.CreateTables: the DDL is reduced to a flag saying the schema exists. Column types, type affinity, the `created_at` default, the indexes and `ON DELETE CASCADE` are not modelled.
- Relational.InsertRow: an AUTOINCREMENT id running past the 64-bit maximum (SQLITE_FULL) is not modelled; the counter is unbounded.
- Relational.Bind: JSON values here are `None`, booleans, ints, strings, lists and dicts. Floats and bytes, which sqlite3 would also bind, do not occur in a converted document.
- XML parsing (`ET.parse`) is a foreign library. The model starts from its outcome: a missing file, a parse error with its diagnostic, another failure to read the file with its message, or the parsed element tree.
- The generic `except Exception` branches (export.py:112-113, burp_convert.py:95-96) are modelled for a parse that fails other than by an XML syntax error (`Unreadable`). Past a successful parse no step of the model raises, so they are not reached from the loops.
- File-system and command-line plumbing is not modelled: `os.path.exists`, `expanduser`, `makedirs`, `create_database`'s directory creation, `main`, `sys.argv` and all `print` logging.
  - One consequence: `Pipeline.ExportXmlToDatabase` takes the database as an object. It does not take a path.
  - Another: the load failure is reported by its cause. The text of the wrapped exception is not modelled.
- The `PRAGMA foreign_keys = ON` statement and the `sqlite_master` listing (export.py:288-296) are not statements of the model. Foreign keys are always enforced.
- `json.dumps` formatting in burp_convert.py:91 is not modelled. The result is the document it serializes.
- The loader takes its data as a dict, as `xml_to_json_data` always produces. `load_data_to_database` called on a non-dict is not modelled.
- Python's `dict.items()` is modelled for dicts as the program builds them: unique keys, each with a value.
- The query server's other tools are not modelled, since each is a thin wrapper over sqlite3 with no logic of its own:
  - `execute_query`, `execute_update`, `list_tables`, `get_table_schema`, `describe_database`;
  - a `SQLiteHandler`'s query execution;
  - the FastMCP server, `async` and `cleanup`.
- Opening a database file (`sqlite3.connect`) is an input to `Db`: each of its operations that may open one is told whether the attempt fails and with what text.
- `Export.LoadDataToDatabase` and `Pipeline.ExportXmlToDatabase` take a database that is already open. The `sqlite3.connect` calls of the loader (export.py:129 in `create_database`, and export.py:283) sit outside its `try` and can raise; that failure is not modelled.
- Export.LoadDataToDatabase: `load_data_to_database` returns `None` and only prints `inserted_count` (export.py:326). The model's `nat` result stands for that printed count.
- Pipeline.ExportXmlToDatabase: `export_xml_to_database` returns `None` too; its `nat` result is the printed count passed through.
