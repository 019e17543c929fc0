/** The byte encodings used to package certificate files: the UTF-8 bytes of a string
    (`toByteArray(charset("UTF-8"))`) and standard Base64 with padding (`BaseEncoding.base64()`). */
module Encoding {
  import opened Wrappers

  type Byte = b: int | 0 <= b < 256

  // ------------------------------------------------------------------ UTF-8

  /** The UTF-8 bytes of one Unicode scalar value. */
  function Utf8Char(c: char): (r: seq<Byte>)
    ensures 1 <= |r| <= 4
  {
    var v := c as int;
    if v < 0x80 then [v]
    else if v < 0x800 then [0xC0 + v / 64, 0x80 + v % 64]
    else if v < 0x10000 then [0xE0 + v / 4096, 0x80 + (v / 64) % 64, 0x80 + v % 64]
    else [0xF0 + v / 262144, 0x80 + (v / 4096) % 64, 0x80 + (v / 64) % 64, 0x80 + v % 64]
  }

  /** The UTF-8 bytes of a string; never shorter than the string. */
  function Utf8(s: string): (r: seq<Byte>)
    ensures |s| <= |r| <= 4 * |s|
  {
    if s == [] then [] else Utf8Char(s[0]) + Utf8(s[1..])
  }

  /** Encoding a concatenation concatenates the encodings. */
  lemma {:induction false} Utf8Concat(a: string, b: string)
    ensures Utf8(a + b) == Utf8(a) + Utf8(b)
  {
    if a != [] {
      assert (a + b)[1..] == a[1..] + b;
      Utf8Concat(a[1..], b);
    } else {
      assert a + b == b;
    }
  }

  // ----------------------------------------------------------------- Base64

  /** The Base64 digit of a 6-bit value. */
  function SextetChar(v: int): char
    requires 0 <= v < 64
  {
    if v < 26 then (('A' as int) + v) as char
    else if v < 52 then (('a' as int) + (v - 26)) as char
    else if v < 62 then (('0' as int) + (v - 52)) as char
    else if v == 62 then '+'
    else '/'
  }

  /** The 6-bit value of a Base64 digit. */
  function SextetValue(c: char): Option<int> {
    if 'A' <= c <= 'Z' then Some((c as int) - ('A' as int))
    else if 'a' <= c <= 'z' then Some((c as int) - ('a' as int) + 26)
    else if '0' <= c <= '9' then Some((c as int) - ('0' as int) + 52)
    else if c == '+' then Some(62)
    else if c == '/' then Some(63)
    else None
  }

  lemma SextetRoundTrip(v: int)
    requires 0 <= v < 64
    ensures SextetValue(SextetChar(v)) == Some(v)
  {
  }

  /** The four digits of a full group of three bytes. */
  function Digits3(a: Byte, b: Byte, c: Byte): (r: string)
    ensures |r| == 4
  {
    [SextetChar(a / 4), SextetChar((a % 4) * 16 + b / 16), SextetChar((b % 16) * 4 + c / 64), SextetChar(c % 64)]
  }

  /** `base64.encode(bytes)`: four digits for every three bytes, the last group padded with `=`. */
  function Base64(b: seq<Byte>): (r: string)
    ensures |r| == (|b| + 2) / 3 * 4
  {
    if |b| == 0 then ""
    else if |b| == 1 then
      [SextetChar(b[0] / 4), SextetChar((b[0] % 4) * 16), '=', '=']
    else if |b| == 2 then
      [SextetChar(b[0] / 4), SextetChar((b[0] % 4) * 16 + b[1] / 16), SextetChar((b[1] % 16) * 4), '=']
    else
      assert (|b| + 2) / 3 * 4 == (|b[3..]| + 2) / 3 * 4 + 4;
      Digits3(b[0], b[1], b[2]) + Base64(b[3..])
  }

  /** Decodes one group of four digits, `None` for a digit outside the alphabet. */
  function DecodeGroup(q: string): Option<seq<Byte>>
    requires |q| == 4
  {
    var v0, v1, v2, v3 := SextetValue(q[0]), SextetValue(q[1]), SextetValue(q[2]), SextetValue(q[3]);
    if v0.None? || v1.None? || !(0 <= v0.value < 64 && 0 <= v1.value < 64) then None
    else if q[2] == '=' && q[3] == '=' then
      Some([v0.value * 4 + v1.value / 16])
    else if v2.None? || !(0 <= v2.value < 64) then None
    else if q[3] == '=' then
      Some([v0.value * 4 + v1.value / 16, (v1.value % 16) * 16 + v2.value / 4])
    else if v3.None? || !(0 <= v3.value < 64) then None
    else
      Some([v0.value * 4 + v1.value / 16, (v1.value % 16) * 16 + v2.value / 4, (v2.value % 4) * 64 + v3.value])
  }

  /** The inverse of `Base64`: the bytes of a text of four-digit groups. */
  function DecodeBase64(s: string): Option<seq<Byte>>
    decreases |s|
  {
    if s == [] then Some([])
    else if |s| < 4 then None
    else
      match DecodeGroup(s[..4])
      case None => None
      case Some(g) =>
        match DecodeBase64(s[4..])
        case None => None
        case Some(rest) => Some(g + rest)
  }

  lemma Group1RoundTrip(a: Byte)
    ensures DecodeGroup([SextetChar(a / 4), SextetChar((a % 4) * 16), '=', '=']) == Some([a])
  {
    SextetRoundTrip(a / 4);
    SextetRoundTrip((a % 4) * 16);
  }

  lemma Group2RoundTrip(a: Byte, b: Byte)
    ensures DecodeGroup([SextetChar(a / 4), SextetChar((a % 4) * 16 + b / 16), SextetChar((b % 16) * 4), '='])
         == Some([a, b])
  {
    SextetRoundTrip(a / 4);
    SextetRoundTrip((a % 4) * 16 + b / 16);
    SextetRoundTrip((b % 16) * 4);
  }

  /** The sextets of three bytes put back together give the bytes. */
  lemma Regroup3(a: Byte, b: Byte, c: Byte)
    ensures var v1, v2 := (a % 4) * 16 + b / 16, (b % 16) * 4 + c / 64;
      && (a / 4) * 4 + v1 / 16 == a
      && (v1 % 16) * 16 + v2 / 4 == b
      && (v2 % 4) * 64 + c % 64 == c
  {
    var v1, v2 := (a % 4) * 16 + b / 16, (b % 16) * 4 + c / 64;
    assert v1 / 16 == a % 4 && v1 % 16 == b / 16;
    assert v2 / 4 == b % 16 && v2 % 4 == c / 64;
  }

  lemma Group3RoundTrip(a: Byte, b: Byte, c: Byte)
    ensures DecodeGroup(Digits3(a, b, c)) == Some([a, b, c])
  {
    var v0, v1, v2, v3 := a / 4, (a % 4) * 16 + b / 16, (b % 16) * 4 + c / 64, c % 64;
    SextetRoundTrip(v0);
    SextetRoundTrip(v1);
    SextetRoundTrip(v2);
    SextetRoundTrip(v3);
    Regroup3(a, b, c);
    var q := [SextetChar(v0), SextetChar(v1), SextetChar(v2), SextetChar(v3)];
    assert SextetValue(q[0]) == Some(v0) && SextetValue(q[1]) == Some(v1);
    assert SextetValue(q[2]) == Some(v2) && SextetValue(q[3]) == Some(v3);
    assert q[2] != '=' && q[3] != '=';
  }

  /** Decoding a group followed by more text decodes each part. */
  lemma DecodeCons(g: string, rest: string)
    requires |g| == 4 && DecodeGroup(g).Some? && DecodeBase64(rest).Some?
    ensures DecodeBase64(g + rest) == Some(DecodeGroup(g).value + DecodeBase64(rest).value)
  {
    var s := g + rest;
    assert s[..4] == g && s[4..] == rest;
  }

  lemma Base64One(b: seq<Byte>)
    requires |b| == 1
    ensures DecodeBase64(Base64(b)) == Some(b)
  {
    var s := Base64(b);
    Group1RoundTrip(b[0]);
    assert [b[0]] == b;
    DecodeCons(s, "");
    assert s + "" == s && b + [] == b;
  }

  lemma Base64Two(b: seq<Byte>)
    requires |b| == 2
    ensures DecodeBase64(Base64(b)) == Some(b)
  {
    var s := Base64(b);
    Group2RoundTrip(b[0], b[1]);
    assert [b[0], b[1]] == b;
    DecodeCons(s, "");
    assert s + "" == s && b + [] == b;
  }

  /** Decoding what `Base64` produced gives back the bytes. */
  lemma {:induction false} Base64RoundTrip(b: seq<Byte>)
    ensures DecodeBase64(Base64(b)) == Some(b)
  {
    if |b| == 1 {
      Base64One(b);
    } else if |b| == 2 {
      Base64Two(b);
    } else if |b| >= 3 {
      Base64RoundTrip(b[3..]);
      Base64Cons(b);
    }
  }

  lemma {:induction false} Base64Cons(b: seq<Byte>)
    requires |b| >= 3 && DecodeBase64(Base64(b[3..])) == Some(b[3..])
    ensures DecodeBase64(Base64(b)) == Some(b)
  {
    var g, rest := Digits3(b[0], b[1], b[2]), Base64(b[3..]);
    var head: seq<Byte> := [b[0], b[1], b[2]];
    assert DecodeGroup(g) == Some(head) by {
      Group3RoundTrip(b[0], b[1], b[2]);
    }
    assert DecodeBase64(g + rest) == Some(head + b[3..]) by {
      DecodeCons(g, rest);
    }
    assert head + b[3..] == b;
    assert Base64(b) == g + rest;
  }
}
