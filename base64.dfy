/** Base64 as defined in section 4 of RFC 4648: the 64-character alphabet of
    Table 1, 24-bit groups written as four characters, and `=` padding for a
    final group of one or two bytes.  The decoder is strict: the length must
    be a multiple of four, every character must be in the alphabet, and `=`
    may only end the last group. */
module Base64 {
  import opened Wrappers
  import opened Bytes

  /** The character that encodes the 6-bit value `v` (Table 1 of RFC 4648:
      `A`-`Z`, `a`-`z`, `0`-`9`, `+`, `/`). */
  function SextetChar(v: int): (c: char)
    requires 0 <= v < 64
    ensures SextetValue(c) == Some(v)
    ensures c != '='
  {
    if v < 26 then ('A' as int + v) as char
    else if v < 52 then ('a' as int + (v - 26)) as char
    else if v < 62 then ('0' as int + (v - 52)) as char
    else if v == 62 then '+'
    else '/'
  }

  /** The 6-bit value a character encodes, or `None` outside the alphabet. */
  function SextetValue(c: char): (r: Option<int>)
    ensures r.Some? ==> 0 <= r.value < 64
  {
    if 'A' <= c <= 'Z' then Some(c as int - 'A' as int)
    else if 'a' <= c <= 'z' then Some(c as int - 'a' as int + 26)
    else if '0' <= c <= '9' then Some(c as int - '0' as int + 52)
    else if c == '+' then Some(62)
    else if c == '/' then Some(63)
    else None
  }

  /** Three bytes as four characters. */
  function EncodeGroup(b0: byte, b1: byte, b2: byte): string
  {
    [SextetChar(b0 / 4), SextetChar((b0 % 4) * 16 + b1 / 16),
     SextetChar((b1 % 16) * 4 + b2 / 64), SextetChar(b2 % 64)]
  }

  /** `base64.b64encode`. */
  function Encode(b: seq<byte>): (s: string)
    ensures |s| == 4 * ((|b| + 2) / 3)
    ensures b != [] ==> s != []
  {
    if |b| == 0 then []
    else if |b| == 1 then
      [SextetChar(b[0] / 4), SextetChar((b[0] % 4) * 16), '=', '=']
    else if |b| == 2 then
      [SextetChar(b[0] / 4), SextetChar((b[0] % 4) * 16 + b[1] / 16),
       SextetChar((b[1] % 16) * 4), '=']
    else
      EncodeGroup(b[0], b[1], b[2]) + Encode(b[3..])
  }

  /** Four alphabet characters as three bytes. */
  function DecodeGroup(c0: char, c1: char, c2: char, c3: char): Option<seq<byte>>
  {
    match (SextetValue(c0), SextetValue(c1), SextetValue(c2), SextetValue(c3))
    case (Some(v0), Some(v1), Some(v2), Some(v3)) =>
      Some([v0 * 4 + v1 / 16, (v1 % 16) * 16 + v2 / 4, (v2 % 4) * 64 + v3])
    case _ => None
  }

  /** The last group, which may end in `==` (one byte) or `=` (two bytes). */
  function DecodeLastGroup(c0: char, c1: char, c2: char, c3: char): Option<seq<byte>>
  {
    if c2 == '=' && c3 == '=' then
      match (SextetValue(c0), SextetValue(c1))
      case (Some(v0), Some(v1)) => Some([v0 * 4 + v1 / 16])
      case _ => None
    else if c3 == '=' then
      match (SextetValue(c0), SextetValue(c1), SextetValue(c2))
      case (Some(v0), Some(v1), Some(v2)) => Some([v0 * 4 + v1 / 16, (v1 % 16) * 16 + v2 / 4])
      case _ => None
    else DecodeGroup(c0, c1, c2, c3)
  }

  /** `base64.b64decode` on canonical input; `None` where Python raises
      `binascii.Error`. */
  function Decode(s: string): (r: Option<seq<byte>>)
    decreases |s|
  {
    if |s| == 0 then Some([])
    else if |s| % 4 != 0 then None
    else if |s| == 4 then DecodeLastGroup(s[0], s[1], s[2], s[3])
    else
      match DecodeGroup(s[0], s[1], s[2], s[3])
      case None => None
      case Some(group) =>
        match Decode(s[4..])
        case None => None
        case Some(rest) => Some(group + rest)
  }

  lemma GroupRoundTrip(b0: byte, b1: byte, b2: byte)
    ensures DecodeGroup(EncodeGroup(b0, b1, b2)[0], EncodeGroup(b0, b1, b2)[1],
                        EncodeGroup(b0, b1, b2)[2], EncodeGroup(b0, b1, b2)[3]) == Some([b0, b1, b2])
  {
    var v1 := (b0 % 4) * 16 + b1 / 16;
    var v2 := (b1 % 16) * 4 + b2 / 64;
    assert v1 / 16 == b0 % 4 && v1 % 16 == b1 / 16;
    assert v2 / 4 == b1 % 16 && v2 % 4 == b2 / 64;
  }

  lemma OneByteRoundTrip(b0: byte)
    ensures Decode(Encode([b0])) == Some([b0])
  {
    var v1 := (b0 % 4) * 16;
    assert v1 / 16 == b0 % 4;
    assert (b0 / 4) * 4 + v1 / 16 == b0;
  }

  lemma TwoByteRoundTrip(b0: byte, b1: byte)
    ensures Decode(Encode([b0, b1])) == Some([b0, b1])
  {
    var v1 := (b0 % 4) * 16 + b1 / 16;
    var v2 := (b1 % 16) * 4;
    assert v1 / 16 == b0 % 4 && v1 % 16 == b1 / 16;
    assert v2 / 4 == b1 % 16;
  }

  /** Any four characters followed by more groups decode group by group. */
  lemma DecodeSplit(g: string, rest: string)
    requires |g| == 4 && rest != [] && |rest| % 4 == 0
    ensures Decode(g + rest) ==
              match DecodeGroup(g[0], g[1], g[2], g[3])
              case None => None
              case Some(group) =>
                match Decode(rest) case None => None case Some(r) => Some(group + r)
  {
    var s := g + rest;
    assert |s| % 4 == 0 && |s| != 4;
    assert s[0] == g[0] && s[1] == g[1] && s[2] == g[2] && s[3] == g[3];
    assert s[4..] == rest;
  }

  /** A full group followed by an encoded remainder decodes group by group. */
  lemma DecodeAfterGroup(b0: byte, b1: byte, b2: byte, rest: string)
    requires rest != [] && |rest| % 4 == 0
    ensures Decode(EncodeGroup(b0, b1, b2) + rest) ==
              match Decode(rest) case None => None case Some(r) => Some([b0, b1, b2] + r)
  {
    GroupRoundTrip(b0, b1, b2);
    DecodeSplit(EncodeGroup(b0, b1, b2), rest);
  }

  lemma DecodeLoneGroup(b0: byte, b1: byte, b2: byte)
    ensures Decode(EncodeGroup(b0, b1, b2)) == Some([b0, b1, b2])
  {
    var g := EncodeGroup(b0, b1, b2);
    GroupRoundTrip(b0, b1, b2);
    assert g[2] != '=' && g[3] != '=';
  }

  /** Decoding undoes encoding, for every byte string. */
  lemma {:induction false} DecodeEncode(b: seq<byte>)
    ensures Decode(Encode(b)) == Some(b)
    decreases |b|
  {
    if |b| == 0 {
    } else if |b| == 1 {
      assert b == [b[0]];
      OneByteRoundTrip(b[0]);
    } else if |b| == 2 {
      assert b == [b[0], b[1]];
      TwoByteRoundTrip(b[0], b[1]);
    } else {
      assert b == [b[0], b[1], b[2]] + b[3..];
      if |b| == 3 {
        assert b[3..] == [];
        assert Encode(b) == EncodeGroup(b[0], b[1], b[2]);
        DecodeLoneGroup(b[0], b[1], b[2]);
        assert b == [b[0], b[1], b[2]];
      } else {
        DecodeEncode(b[3..]);
        DecodeAfterGroup(b[0], b[1], b[2], Encode(b[3..]));
      }
    }
  }

  /** The test vectors of section 10 of RFC 4648, up to three bytes. */
  lemma TestVectorsShort()
    ensures Encode([]) == ""
    ensures Encode([102]) == "Zg=="
    ensures Encode([102, 111]) == "Zm8="
    ensures Encode([102, 111, 111]) == "Zm9v"
  {
  }

  /** `"foo"`, the group the longer test vectors of section 10 of RFC 4648 start with. */
  lemma EncodeFoo()
    ensures EncodeGroup(102, 111, 111) == "Zm9v"
  {
  }

  /** The test vectors of section 10 of RFC 4648 of four bytes and more. */
  lemma TestVectorFoob()
    ensures Encode([102, 111, 111, 98]) == "Zm9vYg=="
  {
    EncodeFoo();
    assert [102, 111, 111, 98][3..] == [98];
  }

  lemma TestVectorFooba()
    ensures Encode([102, 111, 111, 98, 97]) == "Zm9vYmE="
  {
    EncodeFoo();
    assert [102, 111, 111, 98, 97][3..] == [98, 97];
  }

  lemma TestVectorFoobar()
    ensures Encode([102, 111, 111, 98, 97, 114]) == "Zm9vYmFy"
  {
    EncodeFoo();
    assert [102, 111, 111, 98, 97, 114][3..] == [98, 97, 114];
  }
}
