/**
 * Lower-case hexadecimal text: Node's `Buffer#toString('hex')`, which renders
 * the random nonces and upload ids, and `NatToHex`, a reference hex rendering
 * of a number against which the hand-written chain id literal is checked.
 */
module Hex {
  import opened Wrappers

  predicate IsHexDigit(c: char)
  {
    '0' <= c <= '9' || 'a' <= c <= 'f'
  }

  predicate AllHexDigits(s: string)
  {
    forall i :: 0 <= i < |s| ==> IsHexDigit(s[i])
  }

  /** The lower-case digit for a nibble. */
  function HexDigit(d: nat): (c: char)
    requires d < 16
    ensures IsHexDigit(c)
  {
    if d < 10 then ('0' as int + d) as char else ('a' as int + d - 10) as char
  }

  /** The nibble a lower-case digit stands for; the inverse of HexDigit. */
  function HexValue(c: char): (d: nat)
    requires IsHexDigit(c)
    ensures d < 16 && HexDigit(d) == c
  {
    if c <= '9' then c as int - '0' as int else c as int - 'a' as int + 10
  }

  lemma HexValueOfDigit(d: nat)
    requires d < 16
    ensures HexValue(HexDigit(d)) == d
  {
  }

  // ---------------------------------------------------------------------------
  // Bytes

  /** Buffer#toString('hex'): two lower-case digits per byte, high nibble first. */
  function BytesToHex(b: seq<byte>): (r: string)
    ensures |r| == 2 * |b|
    ensures AllHexDigits(r)
  {
    if b == [] then ""
    else [HexDigit(b[0] / 16), HexDigit(b[0] % 16)] + BytesToHex(b[1..])
  }

  /** Reading hex text back into bytes; `None` for an odd length or a non-digit. */
  function HexToBytes(s: string): Option<seq<byte>>
    decreases |s|
  {
    if s == [] then Some([])
    else if |s| == 1 || !IsHexDigit(s[0]) || !IsHexDigit(s[1]) then None
    else match HexToBytes(s[2..])
      case None => None
      case Some(rest) => Some([HexValue(s[0]) * 16 + HexValue(s[1])] + rest)
  }

  /** Hex rendering loses nothing: reading it back gives the same bytes. */
  lemma {:induction false} HexRoundTrip(b: seq<byte>)
    ensures HexToBytes(BytesToHex(b)) == Some(b)
  {
    if b != [] {
      var s := BytesToHex(b);
      assert s[2..] == BytesToHex(b[1..]);
      HexRoundTrip(b[1..]);
      HexValueOfDigit(b[0] / 16);
      HexValueOfDigit(b[0] % 16);
      assert b == [b[0]] + b[1..];
    }
  }

  // ---------------------------------------------------------------------------
  // Non-negative integers

  /** The value of a string of hex digits, most significant first. */
  function HexDigitsValue(s: string): nat
    requires AllHexDigits(s)
  {
    if s == [] then 0 else HexDigitsValue(s[..|s| - 1]) * 16 + HexValue(s[|s| - 1])
  }

  /** Number#toString(16): the shortest lower-case hex digits of `n`. */
  function NatToHex(n: nat): (r: string)
    ensures r != [] && AllHexDigits(r)
    ensures HexDigitsValue(r) == n
    ensures |r| > 1 ==> r[0] != '0'
  {
    if n < 16 then [HexDigit(n)]
    else
      var r := NatToHex(n / 16) + [HexDigit(n % 16)];
      assert r[..|r| - 1] == NatToHex(n / 16);
      r
  }
}
