/** The HTTP message splitter, stated declaratively: what
    `parse_http_request_response` computes from a base64-encoded raw HTTP
    request or response.  The loop that computes it is `Splitter`. */
module HttpMessage {
  import opened Wrappers
  import opened Text
  import Dict
  import Base64
  import Utf8

  /** A header dict: name to value, in order of first appearance. */
  type Headers = Dict.Dict<string>

  /** The literal that separates a header name from its value. */
  const Separator: string := ": "

  /** `lines[1:]`: the request or status line is always dropped, unparsed. */
  function AfterStartLine(lines: seq<string>): seq<string>
  {
    if lines == [] then [] else lines[1..]
  }

  /** The index of the first blank line of `ls`, or `|ls|` when there is none. */
  function FirstBlank(ls: seq<string>): (k: nat)
    ensures k <= |ls|
    ensures k < |ls| ==> IsBlank(ls[k])
    ensures forall i :: 0 <= i < k ==> !IsBlank(ls[i])
  {
    if ls == [] then 0 else if IsBlank(ls[0]) then 0 else 1 + FirstBlank(ls[1..])
  }

  /** The lines of `ls` that are not blank, in order. */
  function NonBlank(ls: seq<string>): (r: seq<string>)
    ensures |r| <= |ls|
    ensures forall i :: 0 <= i < |r| ==> !IsBlank(r[i]) && r[i] in ls
  {
    if ls == [] then []
    else
      var r := NonBlank(ls[..|ls| - 1]);
      if IsBlank(ls[|ls| - 1]) then r else r + [ls[|ls| - 1]]
  }

  /** The header candidates: the lines after the start line and before the
      first blank line. */
  function HeaderBlock(lines: seq<string>): seq<string>
  {
    var ls := AfterStartLine(lines);
    ls[..FirstBlank(ls)]
  }

  /** The body: every non-blank line after the first blank line; empty when
      there is no blank line. */
  function BodyBlock(lines: seq<string>): seq<string>
  {
    var ls := AfterStartLine(lines);
    var k := FirstBlank(ls);
    if k < |ls| then NonBlank(ls[k + 1..]) else []
  }

  /** The header `line` defines, split at the first `": "`, if any. */
  function HeaderOf(line: string): Option<(string, string)>
  {
    SplitFirst(line, Separator)
  }

  /** `line` is a header line that names `name`. */
  predicate Names(line: string, name: string)
  {
    HeaderOf(line).Some? && HeaderOf(line).value.0 == name
  }

  /** `headers[name] = value` for a header line; a line without `": "` is
      skipped. */
  function AddHeader(headers: Headers, line: string): Headers
  {
    var header := HeaderOf(line);
    if header.None? then headers else Dict.Put(headers, header.value.0, header.value.1)
  }

  /** The dict built by adding each line of `ls` in turn. */
  function CollectHeaders(ls: seq<string>): Headers
  {
    if ls == [] then Dict.Empty()
    else
      AddHeader(CollectHeaders(ls[..|ls| - 1]), ls[|ls| - 1])
  }

  /** The re-encoded body: base64 of the UTF-8 bytes of the body lines
      joined by `"\n"`, or `""` (not base64 of `""`) when there are none. */
  function EncodeBody(body: seq<string>): string
  {
    if body == [] then "" else Base64.Encode(Utf8.Encode(Join(body, "\n")))
  }

  /** Headers and re-encoded body of an already decoded message. */
  function SplitText(text: string): (Headers, string)
  {
    var lines := SplitLines(text);
    (CollectHeaders(HeaderBlock(lines)), EncodeBody(BodyBlock(lines)))
  }

  /** `parse_http_request_response`: `None` stands for the `(None, None)`
      returned when the input is not base64 or the bytes are not UTF-8. */
  function Parse(encoded: string): Option<(Headers, string)>
  {
    match Base64.Decode(encoded)
    case None => None
    case Some(bytes) =>
      match Utf8.Decode(bytes)
      case None => None
      case Some(text) => Some(SplitText(text))
  }

  /** The body accumulator of the loop: each body line followed by `"\n"`. */
  function Accumulated(ls: seq<string>): (r: string)
    ensures r == [] <==> ls == []
  {
    if ls == [] then [] else Accumulated(ls[..|ls| - 1]) + ls[|ls| - 1] + "\n"
  }

  // ------------------------------------------------------------------
  // One more line, as the loop sees it

  lemma NonBlankStep(ls: seq<string>, a: nat, b: nat)
    requires a <= b < |ls|
    ensures NonBlank(ls[a..b + 1]) == NonBlank(ls[a..b]) + (if IsBlank(ls[b]) then [] else [ls[b]])
  {
    assert ls[a..b + 1][..b - a] == ls[a..b];
  }

  lemma CollectStep(ls: seq<string>, i: nat)
    requires i < |ls|
    ensures CollectHeaders(ls[..i + 1]) == AddHeader(CollectHeaders(ls[..i]), ls[i])
  {
    assert ls[..i + 1][..i] == ls[..i];
  }

  lemma AccumulatedStep(ps: seq<string>, p: string)
    ensures Accumulated(ps + [p]) == Accumulated(ps) + p + "\n"
  {
    assert (ps + [p])[..|ps|] == ps;
  }

  /** The state of the line loop: whether the first blank line has been
      seen, the headers so far and the body accumulator. */
  datatype ScanState = ScanState(complete: bool, headers: Headers, body: string)

  /** One turn of the loop: a blank line ends the headers (later ones are
      skipped); before it a line is a header candidate, after it a body line. */
  function ScanLine(s: ScanState, line: string): ScanState
  {
    if IsBlank(line) then s.(complete := true)
    else if !s.complete then s.(headers := AddHeader(s.headers, line))
    else s.(body := s.body + line + "\n")
  }

  /** The loop state after the lines `ls`, one turn per line. */
  function Scan(ls: seq<string>): ScanState
  {
    if ls == [] then ScanState(false, Dict.Empty(), "") else ScanLine(Scan(ls[..|ls| - 1]), ls[|ls| - 1])
  }

  /** What the loop state after `rest[..i]` holds, in terms of the first
      blank line of `rest`. */
  ghost predicate Scanned(rest: seq<string>, i: nat, s: ScanState)
  {
    var k := FirstBlank(rest);
    i <= |rest| &&
    if !s.complete then i <= k && s.headers == CollectHeaders(rest[..i]) && s.body == ""
    else k < i && s.headers == CollectHeaders(rest[..k]) && s.body == Accumulated(NonBlank(rest[k + 1..i]))
  }

  lemma ScanBlank(rest: seq<string>, i: nat, s: ScanState)
    requires i < |rest| && IsBlank(rest[i])
    requires Scanned(rest, i, s)
    ensures Scanned(rest, i + 1, ScanLine(s, rest[i]))
  {
    var k := FirstBlank(rest);
    if s.complete {
      NonBlankStep(rest, k + 1, i);
      assert NonBlank(rest[k + 1..i + 1]) == NonBlank(rest[k + 1..i]);
    } else {
      assert k == i && rest[k + 1..i + 1] == [];
    }
  }

  lemma ScanHeader(rest: seq<string>, i: nat, s: ScanState)
    requires i < |rest| && !IsBlank(rest[i]) && !s.complete
    requires Scanned(rest, i, s)
    ensures Scanned(rest, i + 1, ScanLine(s, rest[i]))
  {
    assert FirstBlank(rest) != i;
    CollectStep(rest, i);
  }

  lemma ScanBody(rest: seq<string>, i: nat, s: ScanState)
    requires i < |rest| && !IsBlank(rest[i]) && s.complete
    requires Scanned(rest, i, s)
    ensures Scanned(rest, i + 1, ScanLine(s, rest[i]))
  {
    var k := FirstBlank(rest);
    NonBlankStep(rest, k + 1, i);
    AccumulatedStep(NonBlank(rest[k + 1..i]), rest[i]);
  }

  lemma {:induction false} ScanIsScanned(rest: seq<string>, i: nat)
    requires i <= |rest|
    ensures Scanned(rest, i, Scan(rest[..i]))
  {
    if i == 0 {
      assert rest[..0] == [];
    } else {
      ScanIsScanned(rest, i - 1);
      var s := Scan(rest[..i - 1]);
      assert rest[..i][..i - 1] == rest[..i - 1];
      assert Scan(rest[..i]) == ScanLine(s, rest[i - 1]);
      if IsBlank(rest[i - 1]) {
        ScanBlank(rest, i - 1, s);
      } else if !s.complete {
        ScanHeader(rest, i - 1, s);
      } else {
        ScanBody(rest, i - 1, s);
      }
    }
  }

  /** At the end of the lines, the loop state gives `SplitText`: the headers
      as collected, and the body with its last `"\n"` stripped, re-encoded. */
  lemma ScanDone(text: string)
    ensures var s := Scan(AfterStartLine(SplitLines(text)));
            SplitText(text) ==
              (s.headers, if s.body == "" then "" else Base64.Encode(Utf8.Encode(RStrip(s.body, '\n'))))
  {
    var lines := SplitLines(text);
    var rest := AfterStartLine(lines);
    var block := BodyBlock(lines);
    assert rest[..|rest|] == rest;
    ScanIsScanned(rest, |rest|);
    var s := Scan(rest);
    var body := s.body;
    var complete := s.complete;
    if body != "" {
      assert block != [];
      assert forall j :: 0 <= j < |block| ==> block[j] in rest && block[j] in lines;
      AccumulatedBody(block);
    } else {
      assert complete ==> block == [];
    }
  }

  // ------------------------------------------------------------------
  // Properties of the splitter

  /** The value the last header line naming `name` gives it, if any line does. */
  function LastValue(ls: seq<string>, name: string): Option<string>
  {
    if ls == [] then None
    else if Names(ls[|ls| - 1], name) then Some(HeaderOf(ls[|ls| - 1]).value.1)
    else LastValue(ls[..|ls| - 1], name)
  }

  /** The dict holds, for every name, the value of the last line naming it. */
  lemma {:induction false} CollectIsLastValue(ls: seq<string>, name: string)
    ensures Dict.Get(CollectHeaders(ls), name) == LastValue(ls, name)
  {
    if ls != [] {
      CollectIsLastValue(ls[..|ls| - 1], name);
    }
  }

  /** Line `i` of `ls` sets `name` to `value` and no later line names `name`. */
  predicate LastSetting(ls: seq<string>, i: int, name: string, value: string)
  {
    0 <= i < |ls| && HeaderOf(ls[i]) == Some((name, value))
    && forall j :: i < j < |ls| ==> !Names(ls[j], name)
  }

  /** A last line that does not name `name` leaves the last setting of
      `name` where it was. */
  lemma LastSettingSkipsLine(ls: seq<string>, i: int, name: string, value: string)
    requires ls != [] && !Names(ls[|ls| - 1], name)
    ensures LastSetting(ls, i, name, value) <==> LastSetting(ls[..|ls| - 1], i, name, value)
  {
    var n := |ls| - 1;
    var init := ls[..n];
    if LastSetting(init, i, name, value) {
      forall j | i < j < |ls| ensures !Names(ls[j], name) {
        if j < n {
          assert ls[j] == init[j];
        }
      }
    }
    if LastSetting(ls, i, name, value) {
      if i == n {
        assert false;
      }
      forall j | i < j < n ensures !Names(init[j], name) {
        assert ls[j] == init[j];
      }
    }
  }

  /** `LastValue` is the value of the last line that names `name`. */
  lemma {:induction false} LastValueIsLastSetting(ls: seq<string>, name: string, value: string)
    ensures LastValue(ls, name) == Some(value) <==> exists i :: LastSetting(ls, i, name, value)
  {
    if ls != [] {
      var n := |ls| - 1;
      if Names(ls[n], name) {
        if HeaderOf(ls[n]).value.1 == value {
          assert LastSetting(ls, n, name, value);
        } else {
          forall i | 0 <= i < |ls| ensures !LastSetting(ls, i, name, value) {
            if i < n {
              assert Names(ls[n], name);
            }
          }
        }
      } else {
        var init := ls[..n];
        LastValueIsLastSetting(init, name, value);
        if LastValue(init, name) == Some(value) {
          var i :| LastSetting(init, i, name, value);
          LastSettingSkipsLine(ls, i, name, value);
        }
        if exists i :: LastSetting(ls, i, name, value) {
          var i :| LastSetting(ls, i, name, value);
          LastSettingSkipsLine(ls, i, name, value);
        }
      }
    }
  }

  /** A header name gets the value of the LAST header line that names it. */
  lemma HeaderLastWins(ls: seq<string>, name: string, value: string)
    ensures Dict.Get(CollectHeaders(ls), name) == Some(value) <==>
            exists i :: LastSetting(ls, i, name, value)
  {
    CollectIsLastValue(ls, name);
    LastValueIsLastSetting(ls, name, value);
  }

  lemma {:induction false} LastValueAbsent(ls: seq<string>, name: string)
    ensures LastValue(ls, name).None? <==> forall i :: 0 <= i < |ls| ==> !Names(ls[i], name)
  {
    if ls != [] {
      var init := ls[..|ls| - 1];
      LastValueAbsent(init, name);
      assert forall i :: 0 <= i < |init| ==> init[i] == ls[i];
    }
  }

  /** A name is absent from the dict exactly when no header line names it. */
  lemma HeaderAbsent(ls: seq<string>, name: string)
    ensures Dict.Get(CollectHeaders(ls), name).None? <==> forall i :: 0 <= i < |ls| ==> !Names(ls[i], name)
  {
    CollectIsLastValue(ls, name);
    LastValueAbsent(ls, name);
  }

  /** With no blank line after the start line, every later line is a header
      candidate and the body is empty. */
  lemma NoBlankLine(lines: seq<string>)
    requires forall i :: 1 <= i < |lines| ==> !IsBlank(lines[i])
    ensures HeaderBlock(lines) == AfterStartLine(lines)
    ensures BodyBlock(lines) == []
  {
  }

  /** Whatever the start line says, it changes neither headers nor body. */
  lemma StartLineIgnored(first: string, other: string, rest: seq<string>)
    ensures HeaderBlock([first] + rest) == HeaderBlock([other] + rest)
    ensures BodyBlock([first] + rest) == BodyBlock([other] + rest)
  {
    assert ([first] + rest)[1..] == rest == ([other] + rest)[1..];
  }

  lemma {:induction false} JoinSnoc(ps: seq<string>, p: string, sep: string)
    requires ps != []
    ensures Join(ps + [p], sep) == Join(ps, sep) + sep + p
    decreases |ps|
  {
    if |ps| > 1 {
      assert (ps + [p])[1..] == ps[1..] + [p];
      JoinSnoc(ps[1..], p, sep);
    } else {
      assert ps + [p] == [ps[0], p];
    }
  }

  /** Joining ends with the last part. */
  lemma {:induction false} JoinEndsWithLast(ps: seq<string>, sep: string)
    requires ps != []
    ensures |Join(ps, sep)| >= |ps[|ps| - 1]|
    ensures Join(ps, sep)[|Join(ps, sep)| - |ps[|ps| - 1]|..] == ps[|ps| - 1]
    decreases |ps|
  {
    if |ps| > 1 {
      JoinEndsWithLast(ps[1..], sep);
      var j := Join(ps[1..], sep);
      assert Join(ps, sep) == ps[0] + sep + j;
      var last := ps[|ps| - 1];
      assert Join(ps, sep)[|Join(ps, sep)| - |last|..] == j[|j| - |last|..];
    }
  }

  /** The accumulator is the joined body plus one final newline. */
  lemma {:induction false} AccumulatedIsJoin(ps: seq<string>)
    requires ps != []
    ensures Accumulated(ps) == Join(ps, "\n") + "\n"
    decreases |ps|
  {
    var n := |ps| - 1;
    if n > 0 {
      AccumulatedIsJoin(ps[..n]);
      JoinSnoc(ps[..n], ps[n], "\n");
      assert ps[..n] + [ps[n]] == ps;
    }
  }

  /** `body_content.rstrip('\n')` removes exactly the newline that followed
      the last body line, so the stripped accumulator is the body lines
      joined by `"\n"`. */
  lemma AccumulatedBody(ps: seq<string>)
    requires ps != []
    requires forall i :: 0 <= i < |ps| ==> !IsBlank(ps[i]) && HasNoLineBreak(ps[i])
    ensures RStrip(Accumulated(ps), '\n') == Join(ps, "\n")
  {
    var last := ps[|ps| - 1];
    assert !IsBlank(last) && HasNoLineBreak(last);
    assert last != [] && !IsLineBreak(last[|last| - 1]);
    StrippedAccumulator(ps);
  }

  /** The same, for any lines whose last one ends in something other than
      a newline. */
  lemma StrippedAccumulator(ps: seq<string>)
    requires ps != [] && ps[|ps| - 1] != [] && ps[|ps| - 1][|ps[|ps| - 1]| - 1] != '\n'
    ensures RStrip(Accumulated(ps), '\n') == Join(ps, "\n")
  {
    AccumulatedIsJoin(ps);
    var j := Join(ps, "\n");
    var last := ps[|ps| - 1];
    JoinEndsWithLast(ps, "\n");
    assert j[|j| - 1] == last[|last| - 1];
    RStripOne(j, '\n');
  }

  /** The joined body is never empty when there is a body line. */
  lemma JoinedBodyNonEmpty(ps: seq<string>)
    requires ps != [] && !IsBlank(ps[0])
    ensures Join(ps, "\n") != []
  {
    if |ps| > 1 {
      assert Join(ps, "\n") == ps[0] + "\n" + Join(ps[1..], "\n");
    }
  }

  /** The re-encoded body is `""` exactly when no non-blank line follows a
      blank line; otherwise decoding it gives back the body lines joined by
      `"\n"`, with no trailing newline. */
  lemma BodyRoundTrip(text: string)
    ensures var body := BodyBlock(SplitLines(text));
            var encoded := SplitText(text).1;
            && (encoded == "" <==> body == [])
            && (body != [] ==>
                  && Base64.Decode(encoded) == Some(Utf8.Encode(Join(body, "\n")))
                  && Utf8.Decode(Utf8.Encode(Join(body, "\n"))) == Some(Join(body, "\n")))
  {
    var body := BodyBlock(SplitLines(text));
    if body != [] {
      var joined := Join(body, "\n");
      JoinedBodyNonEmpty(body);
      Base64.DecodeEncode(Utf8.Encode(joined));
      Utf8.DecodeEncode(joined);
    }
  }

  /** The header dict has the shape of every Python dict: each name once. */
  lemma {:induction false} CollectValid(ls: seq<string>)
    ensures Dict.Valid(CollectHeaders(ls))
  {
    if ls != [] {
      var line := ls[|ls| - 1];
      CollectValid(ls[..|ls| - 1]);
      if HeaderOf(line).Some? {
        Dict.PutValid(CollectHeaders(ls[..|ls| - 1]), HeaderOf(line).value.0, HeaderOf(line).value.1);
      }
    }
  }

  /** A successful split yields a header dict of that shape. */
  lemma ParseValid(encoded: string)
    ensures Parse(encoded).Some? ==> Dict.Valid(Parse(encoded).value.0)
  {
    match Base64.Decode(encoded)
    case None =>
    case Some(bytes) =>
      match Utf8.Decode(bytes)
      case None =>
      case Some(text) =>
        CollectValid(HeaderBlock(SplitLines(text)));
  }

  /** An element with no text is passed as `""`: no headers, no body. */
  lemma EmptyInput()
    ensures Parse("") == Some((Dict.Empty(), ""))
  {
  }
}
