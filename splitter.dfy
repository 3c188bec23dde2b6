/** `parse_http_request_response` as the line loop the source runs.  The
    function is defined twice, with identical bodies, in
    `burp_utils/query/export.py` and `burp_utils/burp_convert.py`; this one
    method models both. */
module Splitter {
  import opened Wrappers
  import opened Text
  import Dict
  import Base64
  import Utf8
  import opened HttpMessage

  /** Decode, scan the lines after the start line with a "headers done" flag,
      fill the header dict and the body accumulator, then re-encode the body. */
  method ParseHttpRequestResponse(encoded: string) returns (r: Option<(Headers, string)>)
    ensures r == Parse(encoded)
  {
    var bytes := Base64.Decode(encoded);
    if bytes.None? {
      return None;
    }
    var decoded := Utf8.Decode(bytes.value);
    if decoded.None? {
      return None;
    }
    var rest := AfterStartLine(SplitLines(decoded.value));
    var headers: Headers := Dict.Empty();
    var body := "";
    var complete := false;
    var i := 0;
    while i < |rest|
      invariant i <= |rest|
      invariant Scan(rest[..i]) == ScanState(complete, headers, body)
    {
      assert rest[..i + 1][..i] == rest[..i];
      var line := rest[i];
      if IsBlank(line) {
        complete := true;
      } else if !complete {
        var header := HeaderOf(line);
        if header.Some? {
          headers := Dict.Put(headers, header.value.0, header.value.1);
        }
      } else {
        body := body + line + "\n";
      }
      i := i + 1;
    }
    assert rest[..i] == rest;
    ScanDone(decoded.value);
    if body != "" {
      body := Base64.Encode(Utf8.Encode(RStrip(body, '\n')));
    }
    r := Some((headers, body));
  }
}
