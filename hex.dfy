/**
  `ConvertersHelper.ByteArrayToHex`: two upper-case hexadecimal characters per
  byte, high nibble first, each computed with a branch-free formula: 55 plus the
  nibble, corrected by -7 when the nibble is below ten, the correction being the
  sign of `b - 10` masked with -7.
 */
module Hex {
  import opened Wrappers
  import Text

  /** The alphabet the encoder writes, indexed by nibble value. */
  const HexDigits: string := "0123456789ABCDEF"

  /** The same alphabet after `ToLower()`. */
  const LowerHexDigits: string := "0123456789abcdef"

  /** A .NET `byte`. */
  newtype byte = x: int | 0 <= x < 256

  // ---------------------------------------------------------------------------
  // The two's-complement operators of the nibble trick, on unbounded integers.
  // For operands inside the 32-bit range they agree with C#'s `int` operators.
  // ---------------------------------------------------------------------------

  /** `x >> k` on a signed integer: an arithmetic shift, i.e. `k` halvings rounded down. */
  function ShiftRight(x: int, k: nat): int
    decreases k
  {
    if k == 0 then x else ShiftRight(x / 2, k - 1)
  }

  /** `x & y` on two's-complement integers, bit by bit from the lowest. */
  function And(x: int, y: int): int
    decreases (if x < 0 then -x else x) + (if y < 0 then -y else y)
  {
    if x == 0 || y == 0 then 0
    else if x == -1 then y
    else if y == -1 then x
    else 2 * And(x / 2, y / 2) + (x % 2) * (y % 2)
  }

  /** Shifting -1 or 0 right leaves it unchanged: only the sign is left. */
  lemma {:induction false} ShiftRightOfSign(x: int, k: nat)
    requires x == -1 || x == 0
    ensures ShiftRight(x, k) == x
  {
    if k > 0 {
      ShiftRightOfSign(x / 2, k - 1);
    }
  }

  /** A value in [-16, 16) shifted right by four or more is its sign: -1 or 0. */
  lemma SignOfSmall(x: int, k: nat)
    requires -16 <= x < 16 && k >= 4
    ensures ShiftRight(x, k) == if x < 0 then -1 else 0
  {
    FourHalvings(x, k);
    ShiftRightOfSign(x / 2 / 2 / 2 / 2, k - 4);
  }

  /** The correction term: the sign of `b - 10` (an arithmetic shift by 31) masked with -7,
      so -7 below ten and 0 from ten on. */
  function NibbleCorrection(b: int): (r: int)
    requires 0 <= b < 16
    ensures r == if b < 10 then -7 else 0
  {
    SignOfSmall(b - 10, 31);
    And(ShiftRight(b - 10, 31), -7)
  }

  /** The digit of nibble `n` in the alphabet the encoder writes: `'0'`..`'9'`, then `'A'`..`'F'`. */
  function Digit(n: int): char
    requires 0 <= n < 16
  {
    if n < 10 then ('0' as int + n) as char else ('A' as int + n - 10) as char
  }

  /** The same digit after `ToLower()`: `'0'`..`'9'`, then `'a'`..`'f'`. */
  function LowerDigit(n: int): char
    requires 0 <= n < 16
  {
    if n < 10 then ('0' as int + n) as char else ('a' as int + n - 10) as char
  }

  lemma DigitsAreTheAlphabet(n: int)
    requires 0 <= n < 16
    ensures Digit(n) == HexDigits[n] && LowerDigit(n) == LowerHexDigits[n]
  {
  }

  /** The character the encoder writes for a nibble: 48 + b ('0'..'9') below ten,
      55 + b ('A'..'F') from ten on. */
  function NibbleChar(b: int): (c: char)
    requires 0 <= b < 16
    ensures c == Digit(b)
  {
    (55 + b + NibbleCorrection(b)) as char
  }

  /** `x >> 4` on a byte promoted to `int`: its high nibble. */
  function High(x: byte): (h: int)
    ensures h == x as int / 16
  {
    FourHalvings(x as int, 4);
    ShiftRight(x as int, 4)
  }

  /** `x & 0xF` on a byte promoted to `int`: its low nibble. */
  function Low(x: byte): (l: int)
    ensures l == x as int % 16
  {
    LowMask(x as int);
    And(x as int, 0xF)
  }

  /** Four right shifts by one are one right shift by four. */
  lemma FourHalvings(x: int, k: nat)
    requires k >= 4
    ensures ShiftRight(x, k) == ShiftRight(x / 2 / 2 / 2 / 2, k - 4)
  {
    assert ShiftRight(x, k) == ShiftRight(x / 2, k - 1);
    assert ShiftRight(x / 2, k - 1) == ShiftRight(x / 2 / 2, k - 2);
    assert ShiftRight(x / 2 / 2, k - 2) == ShiftRight(x / 2 / 2 / 2, k - 3);
  }

  /** Masking a byte with 0xF, one bit at a time, keeps its remainder modulo 16. */
  lemma LowMask(x: int)
    requires 0 <= x < 256
    ensures And(x, 0xF) == x % 16
  {
    var a, b, c := x / 2, x / 2 / 2, x / 2 / 2 / 2;
    assert And(c, 1) == c % 2;
    assert And(b, 3) == 2 * (c % 2) + b % 2;
    assert And(a, 7) == 2 * And(b, 3) + a % 2;
    assert And(x, 15) == 2 * And(a, 7) + x % 2;
  }

  // ---------------------------------------------------------------------------
  // The encoding, its decoder and their properties
  // ---------------------------------------------------------------------------

  /** The two characters of one byte, high nibble first. */
  function ByteHex(x: byte): string
  {
    [Digit(x as int / 16), Digit(x as int % 16)]
  }

  /** The hexadecimal text of a byte sequence, byte by byte. */
  function HexOf(bytes: seq<byte>): (s: string)
    ensures |s| == 2 * |bytes|
  {
    if bytes == [] then [] else ByteHex(bytes[0]) + HexOf(bytes[1..])
  }

  /** Character `2i` encodes the high nibble of byte `i`, character `2i + 1` its low nibble. */
  lemma {:induction false} HexOfAt(bytes: seq<byte>, i: nat)
    requires i < |bytes|
    ensures HexOf(bytes)[2 * i] == Digit(bytes[i] as int / 16)
    ensures HexOf(bytes)[2 * i + 1] == Digit(bytes[i] as int % 16)
  {
    var rest := HexOf(bytes[1..]);
    assert HexOf(bytes) == ByteHex(bytes[0]) + rest;
    if i > 0 {
      HexOfAt(bytes[1..], i - 1);
      assert bytes[1..][i - 1] == bytes[i];
      assert HexOf(bytes)[2 * i] == rest[2 * (i - 1)];
      assert HexOf(bytes)[2 * i + 1] == rest[2 * (i - 1) + 1];
    }
  }

  /** Every character written is one of `0123456789ABCDEF`. */
  lemma HexAlphabet(bytes: seq<byte>)
    ensures forall k :: 0 <= k < |HexOf(bytes)| ==> HexOf(bytes)[k] in HexDigits
  {
    forall k | 0 <= k < |HexOf(bytes)|
      ensures HexOf(bytes)[k] in HexDigits
    {
      HexOfAt(bytes, k / 2);
      if k == 2 * (k / 2) {
        DigitsAreTheAlphabet(bytes[k / 2] as int / 16);
      } else {
        DigitsAreTheAlphabet(bytes[k / 2] as int % 16);
      }
    }
  }

  lemma LowerHexDigit(n: int)
    requires 0 <= n < 16
    ensures Text.LowerChar(Digit(n)) == LowerDigit(n)
  {
  }

  /** After `ToLower()` every character is one of `0123456789abcdef`. */
  lemma LowerHexAlphabet(bytes: seq<byte>)
    ensures forall k :: 0 <= k < 2 * |bytes| ==> Text.Lower(HexOf(bytes))[k] in LowerHexDigits
  {
    var s := Text.Lower(HexOf(bytes));
    forall k | 0 <= k < 2 * |bytes|
      ensures s[k] in LowerHexDigits
    {
      var i := k / 2;
      HexOfAt(bytes, i);
      var n := if k == 2 * i then bytes[i] as int / 16 else bytes[i] as int % 16;
      LowerHexDigit(n);
      DigitsAreTheAlphabet(n);
    }
  }

  /** The value of a hexadecimal digit, upper or lower case. */
  function DigitValue(c: char): (v: Option<int>)
    ensures v.Some? ==> 0 <= v.value < 16
  {
    if '0' <= c <= '9' then Some(c as int - '0' as int)
    else if 'A' <= c <= 'F' then Some(c as int - 'A' as int + 10)
    else if 'a' <= c <= 'f' then Some(c as int - 'a' as int + 10)
    else None
  }

  /** Reads consecutive character pairs back into bytes; `None` on an odd length or a non-digit. */
  function DecodeHex(s: string): (r: Option<seq<byte>>)
    ensures r.Some? ==> 2 * |r.value| == |s|
  {
    if |s| == 0 then Some([])
    else if |s| == 1 then None
    else
      match (DigitValue(s[0]), DigitValue(s[1]), DecodeHex(s[2..]))
      case (Some(hi), Some(lo), Some(rest)) =>
        assert 0 <= hi < 16 && 0 <= lo < 16;
        Some([(hi * 16 + lo) as byte] + rest)
      case _ => None
  }

  lemma DigitValueOfHexDigit(n: int)
    requires 0 <= n < 16
    ensures DigitValue(Digit(n)) == Some(n)
    ensures DigitValue(Text.LowerChar(Digit(n))) == Some(n)
  {
  }

  /** Decoding the encoder's output recovers the bytes. */
  lemma {:induction false} DecodeHexOf(bytes: seq<byte>)
    ensures DecodeHex(HexOf(bytes)) == Some(bytes)
  {
    if bytes != [] {
      var s := HexOf(bytes);
      assert s[2..] == HexOf(bytes[1..]);
      DecodeHexOf(bytes[1..]);
      DigitValueOfHexDigit(bytes[0] as int / 16);
      DigitValueOfHexDigit(bytes[0] as int % 16);
      assert [bytes[0]] + bytes[1..] == bytes;
    }
  }

  /** Decoding also recovers the bytes from the lower-cased output, which is what callers send. */
  lemma {:induction false} DecodeLowerHexOf(bytes: seq<byte>)
    ensures DecodeHex(Text.Lower(HexOf(bytes))) == Some(bytes)
  {
    if bytes != [] {
      var s := Text.Lower(HexOf(bytes));
      assert s[2..] == Text.Lower(HexOf(bytes[1..]));
      DecodeLowerHexOf(bytes[1..]);
      DigitValueOfHexDigit(bytes[0] as int / 16);
      DigitValueOfHexDigit(bytes[0] as int % 16);
      assert [bytes[0]] + bytes[1..] == bytes;
    }
  }

  /** Different byte sequences never encode to the same text. */
  lemma HexOfInjective(a: seq<byte>, b: seq<byte>)
    requires HexOf(a) == HexOf(b)
    ensures a == b
  {
    DecodeHexOf(a);
    DecodeHexOf(b);
  }

  /** `ByteArrayToHex(bytes)`: fills a fresh `char[2 * bytes.Length]` two slots per byte. */
  method ByteArrayToHex(bytes: array<byte>) returns (s: string)
    ensures s == HexOf(bytes[..])
  {
    var c := new char[bytes.Length * 2];
    var b: int;
    for i := 0 to bytes.Length
      invariant forall j :: 0 <= j < i ==>
        c[2 * j] == Digit(bytes[j] as int / 16) && c[2 * j + 1] == Digit(bytes[j] as int % 16)
    {
      b := High(bytes[i]);
      c[i * 2] := NibbleChar(b);
      b := Low(bytes[i]);
      c[i * 2 + 1] := NibbleChar(b);
    }
    s := c[..];
    HexOfDigits(bytes[..], s);
  }

  /** A text holding, for every byte, its two digits in order is the byte sequence's `HexOf`. */
  lemma HexOfDigits(bytes: seq<byte>, s: string)
    requires |s| == 2 * |bytes|
    requires forall j :: 0 <= j < |bytes| ==>
      s[2 * j] == Digit(bytes[j] as int / 16) && s[2 * j + 1] == Digit(bytes[j] as int % 16)
    ensures s == HexOf(bytes)
  {
    forall k | 0 <= k < |s|
      ensures s[k] == HexOf(bytes)[k]
    {
      HexOfAt(bytes, k / 2);
      assert k == 2 * (k / 2) || k == 2 * (k / 2) + 1;
    }
  }
}
