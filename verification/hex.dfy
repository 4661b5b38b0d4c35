/** Lowercase hexadecimal text of a byte string, as `hex.EncodeToString` writes it. */
module Hex {

  type Byte = b: int | 0 <= b < 256

  predicate IsLowerHexDigit(c: char)
  {
    '0' <= c <= '9' || 'a' <= c <= 'f'
  }

  function HexDigit(n: int): (c: char)
    requires 0 <= n < 16
    ensures IsLowerHexDigit(c)
  {
    if n < 10 then (48 + n) as char else (87 + n) as char
  }

  /** Two characters per byte, high nibble first. */
  function EncodeToString(b: seq<Byte>): (s: string)
    ensures |s| == 2 * |b|
    ensures forall i :: 0 <= i < |s| ==> IsLowerHexDigit(s[i])
  {
    if b == [] then ""
    else [HexDigit(b[0] / 16), HexDigit(b[0] % 16)] + EncodeToString(b[1..])
  }

  /** Distinct byte strings have distinct encodings, so comparing encodings compares hashes. */
  lemma {:induction false} EncodeToStringInjective(a: seq<Byte>, b: seq<Byte>)
    requires EncodeToString(a) == EncodeToString(b)
    ensures a == b
  {
    if a != [] {
      var s := EncodeToString(a);
      assert s[0] == HexDigit(a[0] / 16) == HexDigit(b[0] / 16);
      assert s[1] == HexDigit(a[0] % 16) == HexDigit(b[0] % 16);
      assert a[0] / 16 == b[0] / 16 && a[0] % 16 == b[0] % 16;
      assert s[2..] == EncodeToString(a[1..]) == EncodeToString(b[1..]);
      EncodeToStringInjective(a[1..], b[1..]);
      assert a == [a[0]] + a[1..];
      assert b == [b[0]] + b[1..];
    }
  }
}
