/**
 * Base64 as tweetnacl-util's `encodeBase64` / `decodeBase64` apply it: the
 * alphabet and padding of section 4 of RFC 4648, and a decoder that refuses
 * any text not shaped like padded base64 (tweetnacl-util throws
 * "invalid encoding" for those).
 */
module Base64 {
  import opened Wrappers

  /** The character for a 6-bit value: A-Z, a-z, 0-9, '+', '/' (RFC 4648, table 1). */
  function CharOf(i: nat): (c: char)
    requires i < 64
    ensures c != '='
  {
    if i < 26 then ('A' as int + i) as char
    else if i < 52 then ('a' as int + i - 26) as char
    else if i < 62 then ('0' as int + i - 52) as char
    else if i == 62 then '+'
    else '/'
  }

  /** The 6-bit value of an alphabet character; `None` for anything else, '=' included. */
  function IndexOf(c: char): (r: Option<nat>)
    ensures r.Some? ==> r.value < 64 && CharOf(r.value) == c
  {
    if 'A' <= c <= 'Z' then Some(c as int - 'A' as int)
    else if 'a' <= c <= 'z' then Some(c as int - 'a' as int + 26)
    else if '0' <= c <= '9' then Some(c as int - '0' as int + 52)
    else if c == '+' then Some(62)
    else if c == '/' then Some(63)
    else None
  }

  lemma IndexOfCharOf(i: nat)
    requires i < 64
    ensures IndexOf(CharOf(i)) == Some(i)
  {
  }

  // ---------------------------------------------------------------------------
  // Encoding

  /** Three bytes as four characters: 6 bits of b0, 2 + 4, 4 + 2, 6 bits of b2. */
  function EncodeGroup(b0: byte, b1: byte, b2: byte): string
  {
    [CharOf(b0 / 4), CharOf(b0 % 4 * 16 + b1 / 16), CharOf(b1 % 16 * 4 + b2 / 64), CharOf(b2 % 64)]
  }

  /** A final two bytes: three characters, the last padded with zero bits, and one '='. */
  function EncodeTail2(b0: byte, b1: byte): string
  {
    [CharOf(b0 / 4), CharOf(b0 % 4 * 16 + b1 / 16), CharOf(b1 % 16 * 4), '=']
  }

  /** A final single byte: two characters and "==". */
  function EncodeTail1(b0: byte): string
  {
    [CharOf(b0 / 4), CharOf(b0 % 4 * 16), '=', '=']
  }

  /** encodeBase64: four characters for every started group of three bytes. */
  function Encode(b: seq<byte>): (r: string)
    ensures |r| % 4 == 0
    ensures |r| == 4 * ((|b| + 2) / 3)
  {
    if |b| == 0 then ""
    else if |b| == 1 then EncodeTail1(b[0])
    else if |b| == 2 then EncodeTail2(b[0], b[1])
    else EncodeGroup(b[0], b[1], b[2]) + Encode(b[3..])
  }

  // ---------------------------------------------------------------------------
  // Decoding

  /** Two 6-bit values to the byte they start (the first 8 of their 12 bits). */
  function Byte0(i0: nat, i1: nat): byte
    requires i0 < 64 && i1 < 64
  {
    i0 * 4 + i1 / 16
  }

  /** The second byte: the low 4 bits of i1 and the high 4 bits of i2. */
  function Byte1(i1: nat, i2: nat): byte
    requires i1 < 64 && i2 < 64
  {
    i1 % 16 * 16 + i2 / 4
  }

  /** The third byte: the low 2 bits of i2 and all of i3. */
  function Byte2(i2: nat, i3: nat): byte
    requires i2 < 64 && i3 < 64
  {
    i2 % 4 * 64 + i3
  }

  /** Four alphabet characters back to three bytes. */
  function DecodeGroup(s: string): (r: Option<seq<byte>>)
    requires |s| == 4
    ensures r.Some? ==> |r.value| == 3
  {
    var o0, o1, o2, o3 := IndexOf(s[0]), IndexOf(s[1]), IndexOf(s[2]), IndexOf(s[3]);
    if o0.Some? && o1.Some? && o2.Some? && o3.Some? then
      Some([Byte0(o0.value, o1.value), Byte1(o1.value, o2.value), Byte2(o2.value, o3.value)])
    else None
  }

  /**
   * The last group, which may end in "=" (two bytes) or "==" (one byte); as
   * in the library, the bits left over after the last byte are ignored.
   */
  function DecodeLastGroup(s: string): (r: Option<seq<byte>>)
    requires |s| == 4
    ensures r.Some? ==> 1 <= |r.value| <= 3
  {
    var o0, o1, o2 := IndexOf(s[0]), IndexOf(s[1]), IndexOf(s[2]);
    if s[2] == '=' && s[3] == '=' then
      if o0.Some? && o1.Some? then Some([Byte0(o0.value, o1.value)]) else None
    else if s[3] == '=' then
      if o0.Some? && o1.Some? && o2.Some? then
        Some([Byte0(o0.value, o1.value), Byte1(o1.value, o2.value)])
      else None
    else
      DecodeGroup(s)
  }

  function DecodeGroups(s: string): (r: Option<seq<byte>>)
    ensures r.Some? ==> |s| % 4 == 0 && 4 * |r.value| <= 3 * |s| && (s != [] ==> 3 * |s| <= 4 * |r.value| + 8)
  {
    if s == [] then Some([])
    else if |s| < 4 then None
    else if |s| == 4 then DecodeLastGroup(s)
    else
      var first, rest := DecodeGroup(s[..4]), DecodeGroups(s[4..]);
      if first.Some? && rest.Some? then Some(first.value + rest.value) else None
  }

  /**
   * decodeBase64: `None` (the library's "invalid encoding" error) unless the
   * text is whole groups of four alphabet characters, the last of which may
   * end in "=" or "==".
   */
  function Decode(s: string): (r: Option<seq<byte>>)
    ensures |s| % 4 != 0 ==> r.None?
    ensures r.Some? ==> 4 * |r.value| <= 3 * |s| && (s != [] ==> 3 * |s| <= 4 * |r.value| + 8)
  {
    if |s| % 4 != 0 then None else DecodeGroups(s)
  }

  // ---------------------------------------------------------------------------
  // Round trip

  /** Splitting a byte into its high 6 and low 2 bits and joining them again. */
  lemma Byte0Joins(b0: byte, lo: nat)
    requires lo < 16
    ensures b0 % 4 * 16 + lo < 64
    ensures Byte0(b0 / 4, b0 % 4 * 16 + lo) == b0
  {
  }

  lemma Byte1Joins(hi: nat, b1: byte, lo: nat)
    requires hi < 4 && lo < 4
    ensures hi * 16 + b1 / 16 < 64 && b1 % 16 * 4 + lo < 64
    ensures Byte1(hi * 16 + b1 / 16, b1 % 16 * 4 + lo) == b1
  {
  }

  lemma Byte2Joins(hi: nat, b2: byte)
    requires hi < 16
    ensures hi * 4 + b2 / 64 < 64
    ensures Byte2(hi * 4 + b2 / 64, b2 % 64) == b2
  {
  }

  lemma GroupRoundTrip(b0: byte, b1: byte, b2: byte)
    ensures DecodeGroup(EncodeGroup(b0, b1, b2)) == Some([b0, b1, b2])
  {
    var i0, i1, i2, i3 := b0 / 4, b0 % 4 * 16 + b1 / 16, b1 % 16 * 4 + b2 / 64, b2 % 64;
    Byte0Joins(b0, b1 / 16);
    Byte1Joins(b0 % 4, b1, b2 / 64);
    Byte2Joins(b1 % 16, b2);
    IndexOfCharOf(i0);
    IndexOfCharOf(i1);
    IndexOfCharOf(i2);
    IndexOfCharOf(i3);
  }

  lemma Tail2RoundTrip(b0: byte, b1: byte)
    ensures DecodeLastGroup(EncodeTail2(b0, b1)) == Some([b0, b1])
  {
    var i0, i1, i2 := b0 / 4, b0 % 4 * 16 + b1 / 16, b1 % 16 * 4;
    Byte0Joins(b0, b1 / 16);
    Byte1Joins(b0 % 4, b1, 0);
    IndexOfCharOf(i0);
    IndexOfCharOf(i1);
    IndexOfCharOf(i2);
  }

  lemma Tail1RoundTrip(b0: byte)
    ensures DecodeLastGroup(EncodeTail1(b0)) == Some([b0])
  {
    Byte0Joins(b0, 0);
    IndexOfCharOf(b0 / 4);
    IndexOfCharOf(b0 % 4 * 16);
  }

  /** Decoding a group followed by more groups decodes each in turn. */
  lemma DecodeGroupsCons(g: string, e: string)
    requires |g| == 4 && e != []
    ensures DecodeGroups(g + e) ==
      var first, rest := DecodeGroup(g), DecodeGroups(e);
      if first.Some? && rest.Some? then Some(first.value + rest.value) else None
  {
    assert (g + e)[..4] == g && (g + e)[4..] == e;
  }

  /** Inputs of at most three bytes encode to a single, last group. */
  lemma DecodeGroupsOfEncodeShort(b: seq<byte>)
    requires 0 < |b| <= 3
    ensures DecodeGroups(Encode(b)) == Some(b)
  {
    if |b| == 1 {
      OneByte(b);
    } else if |b| == 2 {
      TwoBytes(b);
    } else {
      ThreeBytes(b);
    }
  }

  lemma OneByte(b: seq<byte>)
    requires |b| == 1
    ensures DecodeGroups(Encode(b)) == Some(b)
  {
    Tail1RoundTrip(b[0]);
    assert [b[0]] == b;
  }

  lemma TwoBytes(b: seq<byte>)
    requires |b| == 2
    ensures DecodeGroups(Encode(b)) == Some(b)
  {
    Tail2RoundTrip(b[0], b[1]);
    assert [b[0], b[1]] == b;
  }

  lemma ThreeBytes(b: seq<byte>)
    requires |b| == 3
    ensures DecodeGroups(Encode(b)) == Some(b)
  {
    GroupRoundTrip(b[0], b[1], b[2]);
    LastGroupIsFull(b[0], b[1], b[2]);
    var g := EncodeGroup(b[0], b[1], b[2]);
    assert Encode(b[3..]) == [];
    assert Encode(b) == g + [] == g;
    assert [b[0], b[1], b[2]] == b;
  }

  /** A full group carries no '=', so it decodes the same way when it comes last. */
  lemma LastGroupIsFull(b0: byte, b1: byte, b2: byte)
    ensures DecodeGroups(EncodeGroup(b0, b1, b2)) == DecodeGroup(EncodeGroup(b0, b1, b2))
  {
  }

  lemma {:induction false} DecodeGroupsOfEncode(b: seq<byte>)
    ensures DecodeGroups(Encode(b)) == Some(b)
  {
    if 0 < |b| <= 3 {
      DecodeGroupsOfEncodeShort(b);
    } else if |b| > 3 {
      var g, e := EncodeGroup(b[0], b[1], b[2]), Encode(b[3..]);
      assert Encode(b) == g + e;
      GroupRoundTrip(b[0], b[1], b[2]);
      DecodeGroupsOfEncode(b[3..]);
      DecodeGroupsCons(g, e);
      assert [b[0], b[1], b[2]] + b[3..] == b;
    }
  }

  /** decodeBase64(encodeBase64(b)) == b for every byte string. */
  lemma RoundTrip(b: seq<byte>)
    ensures Decode(Encode(b)) == Some(b)
  {
    DecodeGroupsOfEncode(b);
  }

  // ---------------------------------------------------------------------------
  // Which texts decode

  /** `c` is one of the 64 characters of the alphabet. */
  predicate InAlphabet(c: char)
  {
    exists i :: 0 <= i < 64 && CharOf(i) == c
  }

  lemma IndexOfIffInAlphabet(c: char)
    ensures IndexOf(c).Some? <==> InAlphabet(c)
  {
    if InAlphabet(c) {
      var i :| 0 <= i < 64 && CharOf(i) == c;
      IndexOfCharOf(i);
    }
  }

  /** A last group: two alphabet characters, then "==", or a third and "=", or two more. */
  predicate WellFormedLastGroup(g: string)
    requires |g| == 4
  {
    && InAlphabet(g[0]) && InAlphabet(g[1])
    && ((g[2] == '=' && g[3] == '=') || (InAlphabet(g[2]) && (g[3] == '=' || InAlphabet(g[3]))))
  }

  /** Whole groups of four alphabet characters, of which only the last may end in "=" or "==". */
  predicate WellFormed(s: string)
    decreases |s|
  {
    || s == []
    || (|s| == 4 && WellFormedLastGroup(s))
    || (&& |s| > 4
        && InAlphabet(s[0]) && InAlphabet(s[1]) && InAlphabet(s[2]) && InAlphabet(s[3])
        && WellFormed(s[4..]))
  }

  lemma {:induction false} DecodeGroupsIff(s: string)
    ensures DecodeGroups(s).Some? <==> WellFormed(s)
    decreases |s|
  {
    if |s| >= 4 {
      IndexOfIffInAlphabet(s[0]);
      IndexOfIffInAlphabet(s[1]);
      IndexOfIffInAlphabet(s[2]);
      IndexOfIffInAlphabet(s[3]);
      IndexOfIffInAlphabet('=');
      if |s| > 4 {
        var g := s[..4];
        assert g[0] == s[0] && g[1] == s[1] && g[2] == s[2] && g[3] == s[3];
        DecodeGroupsIff(s[4..]);
      }
    }
  }

  /** `decodeBase64` throws exactly on the texts that are not well-formed base64. */
  lemma DecodeIff(s: string)
    ensures Decode(s).Some? <==> WellFormed(s)
  {
    DecodeGroupsIff(s);
  }

  // ---------------------------------------------------------------------------
  // Known answers from section 10 of RFC 4648

  lemma EncodeKnownAnswers()
    ensures Encode([0x66]) == "Zg=="
    ensures Encode([0x66, 0x6F]) == "Zm8="
    ensures Encode([0x66, 0x6F, 0x6F]) == "Zm9v"
    ensures Encode([0x66, 0x6F, 0x6F, 0x62, 0x61, 0x72]) == "Zm9vYmFy"
  {
    var foobar: seq<byte> := [0x66, 0x6F, 0x6F, 0x62, 0x61, 0x72];
    assert foobar[3..] == [0x62, 0x61, 0x72];
  }
}
