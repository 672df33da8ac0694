/**
 * UTF-8 as defined by RFC 3629, the conversion tweetnacl-util's `decodeUTF8`
 * (string to bytes) and `encodeUTF8` (bytes to string) perform around the
 * NaCl box. The byte-to-string direction rejects what RFC 3629 rejects
 * (stray continuation bytes, truncated sequences, overlong forms, surrogates,
 * values past U+10FFFF); JavaScript's `decodeURIComponent` throws a URIError
 * on those, which `None` stands for.
 */
module Utf8 {
  import opened Wrappers

  /** A continuation byte 10xxxxxx. */
  predicate IsContinuation(b: byte)
  {
    0x80 <= b < 0xC0
  }

  /**
   * The UTF-8 bytes of one scalar value: the value is cut into 6-bit pieces
   * from the low end (`v = (q2 * 64 + r2) * 64 + r1`, and so on), which go
   * into continuation bytes after a lead byte that says how many follow.
   */
  function EncodeChar(c: char): (r: seq<byte>)
    ensures 1 <= |r| <= 4
  {
    var v := c as int;
    var q1, r1 := v / 64, v % 64;
    var q2, r2 := q1 / 64, q1 % 64;
    var q3, r3 := q2 / 64, q2 % 64;
    if v < 0x80 then [v]
    else if v < 0x800 then [0xC0 + q1, 0x80 + r1]
    else if v < 0x10000 then [0xE0 + q2, 0x80 + r2, 0x80 + r1]
    else [0xF0 + q3, 0x80 + r3, 0x80 + r2, 0x80 + r1]
  }

  /** decodeUTF8: the bytes of every character, in order. */
  function Encode(s: string): (r: seq<byte>)
    ensures |s| <= |r| <= 4 * |s|
  {
    if s == [] then [] else EncodeChar(s[0]) + Encode(s[1..])
  }

  /** The scalar value whose encoding starts `b`, and how many bytes it takes. */
  function DecodeChar(b: seq<byte>): (r: Option<(char, nat)>)
    ensures r.Some? ==> 1 <= r.value.1 <= |b| && r.value.1 <= 4
  {
    if b == [] then None
    else if b[0] < 0x80 then Some((b[0] as char, 1))
    else if 0xC2 <= b[0] < 0xE0 then
      if |b| < 2 || !IsContinuation(b[1]) then None
      else Some((((b[0] as int - 0xC0) * 64 + (b[1] as int - 0x80)) as char, 2))
    else if 0xE0 <= b[0] < 0xF0 then
      if |b| < 3 || !IsContinuation(b[1]) || !IsContinuation(b[2]) then None
      else
        var v := ((b[0] as int - 0xE0) * 64 + (b[1] as int - 0x80)) * 64 + (b[2] as int - 0x80);
        if v < 0x800 || 0xD800 <= v < 0xE000 then None else Some((v as char, 3))
    else if 0xF0 <= b[0] < 0xF5 then
      if |b| < 4 || !IsContinuation(b[1]) || !IsContinuation(b[2]) || !IsContinuation(b[3]) then None
      else
        var v := (((b[0] as int - 0xF0) * 64 + (b[1] as int - 0x80)) * 64 + (b[2] as int - 0x80)) * 64 + (b[3] as int - 0x80);
        if v < 0x10000 || v >= 0x110000 then None else Some((v as char, 4))
    else None
  }

  /** encodeUTF8: `None` when the bytes are not well-formed UTF-8. */
  function Decode(b: seq<byte>): (r: Option<string>)
    ensures r.Some? ==> |r.value| <= |b| <= 4 * |r.value|
    decreases |b|
  {
    if b == [] then Some([])
    else match DecodeChar(b)
      case None => None
      case Some((c, n)) =>
        match Decode(b[n..])
        case None => None
        case Some(rest) => Some([c] + rest)
  }

  // ---------------------------------------------------------------------------
  // Round trip, one encoding length at a time

  lemma DecodeOneByte(c: char, rest: seq<byte>)
    requires (c as int) < 0x80
    ensures DecodeChar(EncodeChar(c) + rest) == Some((c, 1))
  {
  }

  lemma DecodeTwoBytes(c: char, rest: seq<byte>)
    requires 0x80 <= (c as int) < 0x800
    ensures DecodeChar(EncodeChar(c) + rest) == Some((c, 2))
  {
    var v := c as int;
    assert EncodeChar(c) == [0xC0 + v / 64, 0x80 + v % 64];
  }

  lemma DecodeThreeBytes(c: char, rest: seq<byte>)
    requires 0x800 <= (c as int) < 0x10000
    ensures DecodeChar(EncodeChar(c) + rest) == Some((c, 3))
  {
    var v := c as int;
    var q1, r1 := v / 64, v % 64;
    var q2, r2 := q1 / 64, q1 % 64;
    assert EncodeChar(c) == [0xE0 + q2, 0x80 + r2, 0x80 + r1];
    assert (q2 * 64 + r2) * 64 + r1 == v;
  }

  lemma DecodeFourBytes(c: char, rest: seq<byte>)
    requires 0x10000 <= (c as int)
    ensures DecodeChar(EncodeChar(c) + rest) == Some((c, 4))
  {
    var v := c as int;
    var q1, r1 := v / 64, v % 64;
    var q2, r2 := q1 / 64, q1 % 64;
    var q3, r3 := q2 / 64, q2 % 64;
    assert EncodeChar(c) == [0xF0 + q3, 0x80 + r3, 0x80 + r2, 0x80 + r1];
    assert ((q3 * 64 + r3) * 64 + r2) * 64 + r1 == v;
  }

  /** The first character of an encoding is read back whole, with its exact length. */
  lemma DecodeCharOfEncode(c: char, rest: seq<byte>)
    ensures DecodeChar(EncodeChar(c) + rest) == Some((c, |EncodeChar(c)|))
  {
    var v := c as int;
    if v < 0x80 {
      DecodeOneByte(c, rest);
    } else if v < 0x800 {
      DecodeTwoBytes(c, rest);
    } else if v < 0x10000 {
      DecodeThreeBytes(c, rest);
    } else {
      DecodeFourBytes(c, rest);
    }
  }

  /** A string survives decodeUTF8 followed by encodeUTF8. */
  lemma {:induction false} RoundTrip(s: string)
    ensures Decode(Encode(s)) == Some(s)
  {
    if s != [] {
      var e, rest := EncodeChar(s[0]), Encode(s[1..]);
      assert Encode(s) == e + rest;
      DecodeCharOfEncode(s[0], rest);
      assert (e + rest)[|e|..] == rest;
      RoundTrip(s[1..]);
      assert [s[0]] + s[1..] == s;
    }
  }

  /** Known answers: '$' takes one byte, U+00A3 two, U+20AC three and U+10348 four. */
  lemma EncodeCharKnownAnswers()
    ensures EncodeChar('$') == [0x24]
    ensures EncodeChar('\U{00A3}') == [0xC2, 0xA3]
    ensures EncodeChar('\U{20AC}') == [0xE2, 0x82, 0xAC]
    ensures EncodeChar('\U{10348}') == [0xF0, 0x90, 0x8D, 0x88]
  {
  }

  // ---------------------------------------------------------------------------
  // The other direction: only encodings are accepted

  /** `q * 64 + r` with a 6-bit `r` splits back into `q` and `r`. */
  lemma SplitSixBits(q: int, r: int)
    requires 0 <= q && 0 <= r < 64
    ensures (q * 64 + r) / 64 == q && (q * 64 + r) % 64 == r
  {
  }

  /** The bytes the decoder consumed are exactly the encoding of the character it read. */
  lemma EncodeOfDecodeChar(b: seq<byte>)
    requires DecodeChar(b).Some?
    ensures EncodeChar(DecodeChar(b).value.0) == b[..DecodeChar(b).value.1]
  {
    var (c, n) := DecodeChar(b).value;
    var v := c as int;
    if n == 2 {
      var q1, r1 := b[0] as int - 0xC0, b[1] as int - 0x80;
      assert v == q1 * 64 + r1;
      SplitSixBits(q1, r1);
    } else if n == 3 {
      var q2, r2, r1 := b[0] as int - 0xE0, b[1] as int - 0x80, b[2] as int - 0x80;
      var q1 := q2 * 64 + r2;
      assert v == q1 * 64 + r1;
      SplitSixBits(q1, r1);
      SplitSixBits(q2, r2);
    } else if n == 4 {
      var q3, r3, r2, r1 := b[0] as int - 0xF0, b[1] as int - 0x80, b[2] as int - 0x80, b[3] as int - 0x80;
      var q2 := q3 * 64 + r3;
      var q1 := q2 * 64 + r2;
      assert v == q1 * 64 + r1;
      SplitSixBits(q1, r1);
      SplitSixBits(q2, r2);
      SplitSixBits(q3, r3);
    }
  }

  /** A successful decode reads one character, then decodes the rest. */
  lemma DecodeStep(b: seq<byte>)
    requires b != [] && Decode(b).Some?
    ensures DecodeChar(b).Some?
    ensures Decode(b[DecodeChar(b).value.1..]).Some?
    ensures Decode(b).value == [DecodeChar(b).value.0] + Decode(b[DecodeChar(b).value.1..]).value
  {
  }

  /**
   * Whatever `Decode` accepts is the encoding of the text it returns, so
   * every byte string that is not an encoding (overlong, surrogate, out of
   * range, truncated or stray continuation bytes) is refused.
   */
  lemma {:induction false} EncodeOfDecode(b: seq<byte>)
    requires Decode(b).Some?
    ensures Encode(Decode(b).value) == b
    decreases |b|
  {
    if b != [] {
      DecodeStep(b);
      var n := DecodeChar(b).value.1;
      var head, tail := DecodeChar(b).value.0, Decode(b[n..]).value;
      EncodeOfDecodeChar(b);
      EncodeOfDecode(b[n..]);
      var s := [head] + tail;
      assert s[0] == head && s[1..] == tail;
      assert Encode(s) == b[..n] + b[n..];
      SplitJoins(b, n);
    }
  }

  lemma SplitJoins(b: seq<byte>, n: nat)
    requires n <= |b|
    ensures b[..n] + b[n..] == b
  {
  }

  /** `encodeUTF8` succeeds on exactly the encodings of strings. */
  lemma DecodeIff(b: seq<byte>)
    ensures Decode(b).Some? <==> exists s :: Encode(s) == b
  {
    if Decode(b).Some? {
      EncodeOfDecode(b);
    }
    if exists s :: Encode(s) == b {
      var s :| Encode(s) == b;
      RoundTrip(s);
    }
  }
}
