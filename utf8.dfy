/** UTF-8 as Python's strict codec implements it: `str.encode('utf-8')` and
    `bytes.decode('utf-8')`.  A decoded sequence must be well formed: no
    stray continuation byte, no truncated sequence, no overlong form, no
    surrogate code point and nothing above U+10FFFF. */
module Utf8 {
  import opened Wrappers
  import opened Bytes

  /** The one to four bytes that encode `c`. */
  function EncodeChar(c: char): (b: seq<byte>)
    ensures 1 <= |b| <= 4
  {
    var n := c as int;
    if n < 0x80 then [n]
    else if n < 0x800 then [0xC0 + n / 64, 0x80 + n % 64]
    else if n < 0x10000 then [0xE0 + n / 4096, 0x80 + (n / 64) % 64, 0x80 + n % 64]
    else [0xF0 + n / 262144, 0x80 + (n / 4096) % 64, 0x80 + (n / 64) % 64, 0x80 + n % 64]
  }

  /** `s.encode('utf-8')`. */
  function Encode(s: string): (b: seq<byte>)
    ensures |s| <= |b| <= 4 * |s|
  {
    if s == [] then [] else EncodeChar(s[0]) + Encode(s[1..])
  }

  predicate IsContinuation(b: byte)
  {
    0x80 <= b < 0xC0
  }

  /** The six payload bits of a continuation byte. */
  function Payload(b: byte): int
  {
    b as int - 0x80
  }

  /** The first character of `b` and the number of bytes it takes, or `None`
      when `b` does not start with a well-formed sequence. */
  function DecodeFirst(b: seq<byte>): (r: Option<(char, nat)>)
    requires b != []
    ensures r.Some? ==> 1 <= r.value.1 <= |b|
  {
    var b0 := b[0] as int;
    if b0 < 0x80 then Some((b0 as char, 1))
    else if 0xC0 <= b0 < 0xE0 then
      if |b| < 2 || !IsContinuation(b[1]) then None
      else
        var n := (b0 - 0xC0) * 64 + Payload(b[1]);
        if n < 0x80 then None else Some((n as char, 2))
    else if 0xE0 <= b0 < 0xF0 then
      if |b| < 3 || !IsContinuation(b[1]) || !IsContinuation(b[2]) then None
      else
        var n := (b0 - 0xE0) * 4096 + Payload(b[1]) * 64 + Payload(b[2]);
        if n < 0x800 || 0xD800 <= n < 0xE000 then None else Some((n as char, 3))
    else if 0xF0 <= b0 < 0xF8 then
      if |b| < 4 || !IsContinuation(b[1]) || !IsContinuation(b[2]) || !IsContinuation(b[3]) then None
      else
        var n := (b0 - 0xF0) * 262144 + Payload(b[1]) * 4096 + Payload(b[2]) * 64 + Payload(b[3]);
        if n < 0x10000 || 0x110000 <= n then None else Some((n as char, 4))
    else None
  }

  /** `b.decode('utf-8')`; `None` where Python raises `UnicodeDecodeError`. */
  function Decode(b: seq<byte>): Option<string>
    decreases |b|
  {
    if b == [] then Some([])
    else
      match DecodeFirst(b)
      case None => None
      case Some((c, k)) =>
        match Decode(b[k..])
        case None => None
        case Some(s) => Some([c] + s)
  }

  lemma DecodeFirstOfEncodeChar(c: char, rest: seq<byte>)
    ensures DecodeFirst(EncodeChar(c) + rest) == Some((c, |EncodeChar(c)|))
  {
    var n := c as int;
    var b := EncodeChar(c) + rest;
    if n < 0x80 {
    } else if n < 0x800 {
      assert (n / 64) * 64 + n % 64 == n;
    } else if n < 0x10000 {
      var q := n / 64;
      assert n == q * 64 + n % 64;
      assert n / 4096 == q / 64;
      assert q == (q / 64) * 64 + q % 64;
      assert (b[0] as int - 0xE0) * 4096 + Payload(b[1]) * 64 + Payload(b[2]) == n;
    } else {
      var q := n / 64;
      var p := q / 64;
      assert n == q * 64 + n % 64;
      assert q == p * 64 + q % 64;
      assert n / 4096 == p;
      assert p == (p / 64) * 64 + p % 64;
      assert n / 262144 == p / 64;
      assert (b[0] as int - 0xF0) * 262144 + Payload(b[1]) * 4096 + Payload(b[2]) * 64 + Payload(b[3]) == n;
    }
  }

  /** Decoding undoes encoding, for every string. */
  lemma {:induction false} DecodeEncode(s: string)
    ensures Decode(Encode(s)) == Some(s)
    decreases |s|
  {
    if s != [] {
      var head := EncodeChar(s[0]);
      DecodeFirstOfEncodeChar(s[0], Encode(s[1..]));
      assert (head + Encode(s[1..]))[|head|..] == Encode(s[1..]);
      DecodeEncode(s[1..]);
      assert s == [s[0]] + s[1..];
    }
  }
}
