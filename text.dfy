/** The few Python `str` operations the pipeline relies on, over Dafny's
    `string` (a sequence of Unicode scalar values). */
module Text {
  import opened Wrappers

  /** `c.isspace()`: the characters Python treats as whitespace. */
  predicate IsSpace(c: char)
  {
    var n := c as int;
    n == 0x20 || 0x09 <= n <= 0x0D || 0x1C <= n <= 0x1F || n == 0x85 || n == 0xA0
    || n == 0x1680 || 0x2000 <= n <= 0x200A || n == 0x2028 || n == 0x2029
    || n == 0x202F || n == 0x205F || n == 0x3000
  }

  /** `not s.strip()`: the line is empty or all whitespace. */
  predicate IsBlank(s: string)
  {
    forall i :: 0 <= i < |s| ==> IsSpace(s[i])
  }

  /** The line boundaries recognised by `str.splitlines` (`\r\n` counts as one). */
  predicate IsLineBreak(c: char)
  {
    var n := c as int;
    0x0A <= n <= 0x0D || 0x1C <= n <= 0x1E || n == 0x85 || n == 0x2028 || n == 0x2029
  }

  predicate HasNoLineBreak(s: string)
  {
    forall i :: 0 <= i < |s| ==> !IsLineBreak(s[i])
  }

  /** The index of the first line break at or after `from`, or `|s|`. */
  function NextBreak(s: string, from: nat): (j: nat)
    requires from <= |s|
    ensures from <= j <= |s|
    ensures j < |s| ==> IsLineBreak(s[j])
    ensures forall i :: from <= i < j ==> !IsLineBreak(s[i])
    decreases |s| - from
  {
    if from == |s| || IsLineBreak(s[from]) then from else NextBreak(s, from + 1)
  }

  /** `s.splitlines()`: a final line break does not start an empty line. */
  function SplitLines(s: string): (lines: seq<string>)
    ensures forall i :: 0 <= i < |lines| ==> HasNoLineBreak(lines[i])
    ensures s == [] <==> lines == []
    decreases |s|
  {
    if s == [] then []
    else
      var j := NextBreak(s, 0);
      if j == |s| then [s]
      else
        var width := if s[j] == '\r' && j + 1 < |s| && s[j + 1] == '\n' then 2 else 1;
        [s[..j]] + SplitLines(s[j + width..])
  }

  /** `sep` occurs in `s` starting at index `i`. */
  predicate OccursAt(s: string, sep: string, i: int)
  {
    0 <= i && i + |sep| <= |s| && s[i..i + |sep|] == sep
  }

  /** `sep in s`. */
  predicate Contains(s: string, sep: string)
  {
    exists i :: 0 <= i <= |s| && OccursAt(s, sep, i)
  }

  /** `s.find(sep, from)`: the first occurrence of `sep` at or after `from`. */
  function Find(s: string, sep: string, from: nat): (r: Option<nat>)
    requires from <= |s|
    ensures r.Some? ==> from <= r.value && OccursAt(s, sep, r.value)
    ensures forall i :: from <= i && (r.None? || i < r.value) ==> !OccursAt(s, sep, i)
    decreases |s| - from
  {
    if from + |sep| > |s| then None
    else if s[from..from + |sep|] == sep then Some(from)
    else Find(s, sep, from + 1)
  }

  /** `s.split(sep, 1)` when `sep in s`: the text before and after the first
      occurrence of `sep`; `None` when `sep` does not occur. */
  function SplitFirst(s: string, sep: string): (r: Option<(string, string)>)
    ensures r.None? <==> !Contains(s, sep)
    ensures r.Some? ==> r.value.0 + sep + r.value.1 == s
    ensures r.Some? ==> forall i :: 0 <= i < |r.value.0| ==> !OccursAt(s, sep, i)
  {
    match Find(s, sep, 0)
    case None => None
    case Some(i) =>
      var r := (s[..i], s[i + |sep|..]);
      assert r.0 + sep + r.1 == s[..i] + s[i..i + |sep|] + s[i + |sep|..];
      assert r.0 + sep + r.1 == s;
      Some(r)
  }

  /** `sep.join(parts)`. */
  function Join(parts: seq<string>, sep: string): (r: string)
    ensures parts == [] ==> r == []
    ensures |parts| == 1 ==> r == parts[0]
  {
    if parts == [] then []
    else if |parts| == 1 then parts[0]
    else parts[0] + sep + Join(parts[1..], sep)
  }

  /** `s.rstrip(c)` for a single character `c`. */
  function RStrip(s: string, c: char): (r: string)
    ensures r <= s
    ensures r == [] || r[|r| - 1] != c
    ensures forall i :: |r| <= i < |s| ==> s[i] == c
  {
    if s == [] || s[|s| - 1] != c then s else RStrip(s[..|s| - 1], c)
  }

  /** Stripping undoes appending one `c` to a string that does not end in `c`. */
  lemma RStripOne(s: string, c: char)
    requires s == [] || s[|s| - 1] != c
    ensures RStrip(s + [c], c) == s
  {
    assert (s + [c])[..|s|] == s;
  }

  /** `s.upper()` restricted to ASCII letters. */
  function Upper(s: string): (r: string)
    ensures |r| == |s|
    ensures forall i :: 0 <= i < |s| ==>
              r[i] == if 'a' <= s[i] <= 'z' then (s[i] as int - 32) as char else s[i]
  {
    if s == [] then []
    else [if 'a' <= s[0] <= 'z' then (s[0] as int - 32) as char else s[0]] + Upper(s[1..])
  }

  /** `str(n)` for a natural number. */
  function Decimal(n: nat): (r: string)
    ensures r != []
    ensures forall i :: 0 <= i < |r| ==> '0' <= r[i] <= '9'
  {
    if n < 10 then [('0' as int + n) as char]
    else Decimal(n / 10) + [('0' as int + n % 10) as char]
  }

  /** The number a string of decimal digits denotes, most significant first. */
  function DigitsValue(s: string): nat
    requires forall i :: 0 <= i < |s| ==> '0' <= s[i] <= '9'
  {
    if s == [] then 0
    else 10 * DigitsValue(s[..|s| - 1]) + (s[|s| - 1] as int - '0' as int)
  }

  /** Reading the rendering back gives the number: `int(str(n)) == n`. */
  lemma {:induction false} DecimalValue(n: nat)
    ensures DigitsValue(Decimal(n)) == n
  {
    if n >= 10 {
      var d := Decimal(n);
      assert d[..|d| - 1] == Decimal(n / 10);
      DecimalValue(n / 10);
    }
  }
}
