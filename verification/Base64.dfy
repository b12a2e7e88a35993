/** Byte strings, and the base64 encoding of section 4 of RFC 4648 as Go encodes and decodes it. */
module Base64 {
  import opened Wrappers

  newtype Byte = x: int | 0 <= x < 256
  type Bytes = seq<Byte>

  type Digit = d: nat | d < 64

  // ---------------------------------------------------------------- digits

  /** As in Go, an encoding is given by its alphabet. */
  datatype Alphabet = Alphabet(encode: Digit -> char, decode: char -> Option<Digit>)

  /** Characters that are no digits: padding, and what must not occur in encoded text. */
  predicate Special(c: char) {
    c == '=' || c == ',' || c == '\r' || c == '\n'
  }

  ghost predicate IsAlphabet(a: Alphabet) {
    forall d: Digit {:trigger a.encode(d)} :: a.decode(a.encode(d)) == Some(d) && !Special(a.encode(d))
  }

  function StandardDigit(d: Digit): char {
    if d < 26 then 'A' + d as char
    else if d < 52 then 'a' + (d - 26) as char
    else if d < 62 then '0' + (d - 52) as char
    else if d == 62 then '+'
    else '/'
  }

  function StandardValue(c: char): Option<Digit> {
    if 'A' <= c <= 'Z' then Some((c - 'A') as int)
    else if 'a' <= c <= 'z' then Some((c - 'a') as int + 26)
    else if '0' <= c <= '9' then Some((c - '0') as int + 52)
    else if c == '+' then Some(62)
    else if c == '/' then Some(63)
    else None
  }

  const STANDARD := Alphabet(StandardDigit, StandardValue)

  lemma {:induction false} StandardIsAlphabet()
    ensures IsAlphabet(STANDARD)
  {
  }

  /** Table 1 of section 4 of RFC 4648, by the first and last digit of each range. */
  lemma {:induction false} StandardRanges(d: Digit)
    ensures d < 26 ==> 'A' <= STANDARD.encode(d) <= 'Z' && STANDARD.encode(d) as int - 'A' as int == d
    ensures 26 <= d < 52 ==> 'a' <= STANDARD.encode(d) <= 'z' && STANDARD.encode(d) as int - 'a' as int == d - 26
    ensures 52 <= d < 62 ==> '0' <= STANDARD.encode(d) <= '9' && STANDARD.encode(d) as int - '0' as int == d - 52
    ensures STANDARD.encode(62) == '+' && STANDARD.encode(63) == '/'
  {
  }

  // ---------------------------------------------------------------- encoding

  function EncodeWith(a: Alphabet, b: Bytes): string {
    if b == [] then ""
    else
      var x := b[0] as int;
      if |b| == 1 then
        [a.encode(x / 4), a.encode(x % 4 * 16), '=', '=']
      else
        var y := b[1] as int;
        if |b| == 2 then
          [a.encode(x / 4), a.encode(x % 4 * 16 + y / 16), a.encode(y % 16 * 4), '=']
        else
          var z := b[2] as int;
          [a.encode(x / 4), a.encode(x % 4 * 16 + y / 16), a.encode(y % 16 * 4 + z / 64), a.encode(z % 64)]
          + EncodeWith(a, b[3..])
  }

  // ---------------------------------------------------------------- decoding

  /** Go's decoder passes over line breaks. */
  function WithoutLineBreaks(s: string): string {
    if s == "" then ""
    else if s[0] == '\r' || s[0] == '\n' then WithoutLineBreaks(s[1..])
    else [s[0]] + WithoutLineBreaks(s[1..])
  }

  function FirstByte(d0: Digit, d1: Digit): Byte {
    (d0 * 4 + d1 / 16) as Byte
  }

  function SecondByte(d1: Digit, d2: Digit): Byte {
    (d1 % 16 * 16 + d2 / 4) as Byte
  }

  function ThirdByte(d2: Digit, d3: Digit): Byte {
    (d2 % 4 * 64 + d3) as Byte
  }

  function DecodeQuads(a: Alphabet, s: string): Option<Bytes> {
    if s == "" then Some([])
    else if |s| < 4 || s[0] == '=' || s[1] == '=' || a.decode(s[0]).None? || a.decode(s[1]).None? then None
    else
      var d0, d1 := a.decode(s[0]).value, a.decode(s[1]).value;
      if s[2] == '=' then
        if s[3] == '=' && |s| == 4 then Some([FirstByte(d0, d1)]) else None
      else if a.decode(s[2]).None? then None
      else
        var d2 := a.decode(s[2]).value;
        if s[3] == '=' then
          if |s| == 4 then Some([FirstByte(d0, d1), SecondByte(d1, d2)]) else None
        else if a.decode(s[3]).None? then None
        else
          match DecodeQuads(a, s[4..])
          case None => None
          case Some(rest) =>
            Some([FirstByte(d0, d1), SecondByte(d1, d2), ThirdByte(d2, a.decode(s[3]).value)] + rest)
  }

  function DecodeWith(a: Alphabet, s: string): Option<Bytes> {
    DecodeQuads(a, WithoutLineBreaks(s))
  }

  // ---------------------------------------------------------------- round trip

  predicate Plain(s: string) {
    forall i :: 0 <= i < |s| ==> s[i] != ',' && s[i] != '\r' && s[i] != '\n'
  }

  lemma {:induction false} NothingToDrop(s: string)
    requires Plain(s)
    ensures WithoutLineBreaks(s) == s
  {
    if s != "" {
      assert Plain(s[1..]) by { assert forall i :: 0 <= i < |s[1..]| ==> s[1..][i] == s[i + 1]; }
      NothingToDrop(s[1..]);
    }
  }

  /** Encoded text holds no comma and no line break. */
  lemma {:induction false} EncodingIsPlain(a: Alphabet, b: Bytes)
    requires IsAlphabet(a)
    ensures Plain(EncodeWith(a, b))
  {
    if |b| >= 3 {
      EncodingIsPlain(a, b[3..]);
    }
  }

  lemma {:induction false} BytesRoundTrip(x: int, y: int, z: int)
    requires 0 <= x < 256 && 0 <= y < 256 && 0 <= z < 256
    ensures FirstByte(x / 4, x % 4 * 16 + y / 16) as int == x
    ensures SecondByte(x % 4 * 16 + y / 16, y % 16 * 4 + z / 64) as int == y
    ensures ThirdByte(y % 16 * 4 + z / 64, z % 64) as int == z
  {
  }

  lemma {:induction false} TwoBytesBack(x: int, y: int)
    requires 0 <= x < 256 && 0 <= y < 256
    ensures FirstByte(x / 4, x % 4 * 16 + y / 16) as int == x
    ensures SecondByte(x % 4 * 16 + y / 16, y % 16 * 4) as int == y
  {
  }

  lemma {:induction false} DecodeFourDigits(a: Alphabet, d0: Digit, d1: Digit, d2: Digit, d3: Digit, s: string, b: Bytes)
    requires IsAlphabet(a) && DecodeQuads(a, s) == Some(b)
    ensures DecodeQuads(a, [a.encode(d0), a.encode(d1), a.encode(d2), a.encode(d3)] + s)
         == Some([FirstByte(d0, d1), SecondByte(d1, d2), ThirdByte(d2, d3)] + b)
  {
    assert ([a.encode(d0), a.encode(d1), a.encode(d2), a.encode(d3)] + s)[4..] == s;
  }

  lemma {:induction false} DecodeTwoDigits(a: Alphabet, d0: Digit, d1: Digit)
    requires IsAlphabet(a)
    ensures DecodeQuads(a, [a.encode(d0), a.encode(d1), '=', '=']) == Some([FirstByte(d0, d1)])
  {
    assert a.decode(a.encode(d0)) == Some(d0) && a.decode(a.encode(d1)) == Some(d1);
  }

  lemma {:induction false} DecodeThreeDigits(a: Alphabet, d0: Digit, d1: Digit, d2: Digit)
    requires IsAlphabet(a)
    ensures DecodeQuads(a, [a.encode(d0), a.encode(d1), a.encode(d2), '='])
         == Some([FirstByte(d0, d1), SecondByte(d1, d2)])
  {
    assert a.decode(a.encode(d0)) == Some(d0) && a.decode(a.encode(d1)) == Some(d1) && a.decode(a.encode(d2)) == Some(d2);
  }

  lemma {:induction false} OneByteRoundTrip(a: Alphabet, b: Byte)
    requires IsAlphabet(a)
    ensures DecodeQuads(a, EncodeWith(a, [b])) == Some([b])
  {
    var x := b as int;
    DecodeTwoDigits(a, x / 4, x % 4 * 16);
    assert FirstByte(x / 4, x % 4 * 16) == b;
  }

  lemma {:induction false} TwoBytesRoundTrip(a: Alphabet, b: Byte, c: Byte)
    requires IsAlphabet(a)
    ensures DecodeQuads(a, EncodeWith(a, [b, c])) == Some([b, c])
  {
    var x, y := b as int, c as int;
    var d0: Digit, d1: Digit, d2: Digit := x / 4, x % 4 * 16 + y / 16, y % 16 * 4;
    assert EncodeWith(a, [b, c]) == [a.encode(d0), a.encode(d1), a.encode(d2), '='];
    DecodeThreeDigits(a, d0, d1, d2);
    TwoBytesBack(x, y);
  }

  lemma {:induction false} QuadsRoundTrip(a: Alphabet, b: Bytes)
    requires IsAlphabet(a)
    ensures DecodeQuads(a, EncodeWith(a, b)) == Some(b)
  {
    if |b| == 1 {
      assert b == [b[0]];
      OneByteRoundTrip(a, b[0]);
    } else if |b| == 2 {
      assert b == [b[0], b[1]];
      TwoBytesRoundTrip(a, b[0], b[1]);
    } else if |b| >= 3 {
      var x, y, z := b[0] as int, b[1] as int, b[2] as int;
      QuadsRoundTrip(a, b[3..]);
      DecodeFourDigits(a, x / 4, x % 4 * 16 + y / 16, y % 16 * 4 + z / 64, z % 64, EncodeWith(a, b[3..]), b[3..]);
      BytesRoundTrip(x, y, z);
      assert b == [b[0], b[1], b[2]] + b[3..];
    }
  }

  /** Decoding undoes encoding, for every byte string and every alphabet. */
  lemma {:induction false} DecodeUndoesEncode(a: Alphabet, b: Bytes)
    requires IsAlphabet(a)
    ensures DecodeWith(a, EncodeWith(a, b)) == Some(b)
  {
    EncodingIsPlain(a, b);
    NothingToDrop(EncodeWith(a, b));
    QuadsRoundTrip(a, b);
  }

  /** What is decoded is four digits for three bytes, with padding at the end only, line breaks apart. */
  lemma {:induction false} DecodedLength(a: Alphabet, s: string)
    requires DecodeQuads(a, s).Some?
    ensures |s| % 4 == 0
    ensures |DecodeQuads(a, s).value|
         == |s| / 4 * 3 - (if s == "" || s[|s| - 1] != '=' then 0 else if s[|s| - 2] == '=' then 2 else 1)
  {
    if s != "" && s[2] != '=' && s[3] != '=' && |s| > 4 {
      DecodedLength(a, s[4..]);
      assert s[4..][|s| - 5] == s[|s| - 1] && s[4..][|s| - 6] == s[|s| - 2];
    }
  }

  /** A line break anywhere makes no difference to decoding. */
  lemma {:induction false} LineBreaksAreSkipped(a: Alphabet, s: string, i: nat, c: char)
    requires i <= |s| && (c == '\r' || c == '\n')
    ensures DecodeWith(a, s[..i] + [c] + s[i..]) == DecodeWith(a, s)
  {
    DropsLineBreak(s[..i], c, s[i..]);
    assert s[..i] + s[i..] == s;
  }

  lemma {:induction false} DropsLineBreak(s: string, c: char, t: string)
    requires c == '\r' || c == '\n'
    ensures WithoutLineBreaks(s + [c] + t) == WithoutLineBreaks(s + t)
  {
    if s == "" {
      assert s + [c] + t == [c] + t && s + t == t && ([c] + t)[1..] == t;
    } else {
      assert (s + [c] + t)[1..] == s[1..] + [c] + t && (s + t)[1..] == s[1..] + t;
      DropsLineBreak(s[1..], c, t);
    }
  }

  /** Test vectors of section 10 of RFC 4648: one byte, two bytes and three. */
  lemma {:induction false} TestVectors()
    ensures EncodeWith(STANDARD, [102]) == "Zg=="
    ensures EncodeWith(STANDARD, [102, 111]) == "Zm8="
    ensures EncodeWith(STANDARD, [102, 111, 111]) == "Zm9v"
  {
    assert EncodeWith(STANDARD, [102, 111, 111]) == "Zm9v" by {
      assert [102, 111, 111 as Byte][3..] == [];
    }
  }
}
