/** Hexadecimal text as the bridge produces it: the command codes are strings of
    lower-case hex digits, built with JavaScript's `Number.prototype.toString(16)`,
    which writes no leading zeros. */
module Hex {
  import opened Wrappers

  /** A byte as the integer 0..255. */
  type Byte = b: int | 0 <= b < 256

  predicate IsHexChar(c: char) {
    '0' <= c <= '9' || 'a' <= c <= 'f'
  }

  predicate IsHexString(s: string) {
    forall i :: 0 <= i < |s| ==> IsHexChar(s[i])
  }

  /** The value of one lower-case hex digit, `None` for any other character. */
  function DigitValue(c: char): (r: Option<nat>)
    ensures r.Some? <==> IsHexChar(c)
    ensures r.Some? ==> r.value < 16
  {
    if '0' <= c <= '9' then Some(c as int - '0' as int)
    else if 'a' <= c <= 'f' then Some(c as int - 'a' as int + 10)
    else None
  }

  /** The lower-case digit for a value below 16. */
  function DigitChar(d: nat): (c: char)
    requires d < 16
    ensures IsHexChar(c) && DigitValue(c) == Some(d)
  {
    if d < 10 then ('0' as int + d) as char else ('a' as int + d - 10) as char
  }

  /** `n.toString(16)` for a non-negative integer: the shortest digit string. */
  function ToHex(n: nat): (s: string)
    ensures |s| >= 1 && IsHexString(s)
    ensures s[0] == '0' ==> n == 0
    decreases n
  {
    if n < 16 then [DigitChar(n)] else ToHex(n / 16) + [DigitChar(n % 16)]
  }

  /** The number a string of hex digits denotes (most significant digit first). */
  function HexValue(s: string): nat
    requires IsHexString(s)
    decreases |s|
  {
    if s == [] then 0
    else 16 * HexValue(s[..|s| - 1]) + DigitValue(s[|s| - 1]).value
  }

  /** `toString(16)` loses nothing: reading the digits back gives the number. */
  lemma {:induction false} ToHexValue(n: nat)
    ensures HexValue(ToHex(n)) == n
    decreases n
  {
    var s := ToHex(n);
    if n >= 16 {
      ToHexValue(n / 16);
      assert s[..|s| - 1] == ToHex(n / 16);
    }
  }

  /** A byte as exactly two digits, zero-padded. */
  function Hex2(b: Byte): (s: string)
    ensures |s| == 2 && IsHexString(s)
  {
    [DigitChar(b / 16), DigitChar(b % 16)]
  }

  /** For the values 16..255 `toString(16)` already yields two digits, so the
      code's missing padding never shows. */
  lemma ToHexOfByte(n: nat)
    requires 16 <= n < 256
    ensures ToHex(n) == Hex2(n)
  {
    assert ToHex(n / 16) == [DigitChar(n / 16)];
  }

  /** A byte string written as hex, two digits per byte. */
  function EncodeHex(bs: seq<Byte>): (s: string)
    ensures |s| == 2 * |bs| && IsHexString(s)
    decreases |bs|
  {
    if bs == [] then [] else Hex2(bs[0]) + EncodeHex(bs[1..])
  }

  /** Reads a string of lower-case hex digit pairs back into bytes; `None` for an
      odd length or any character that is not a lower-case hex digit. */
  function DecodeHex(s: string): (r: Option<seq<Byte>>)
    ensures r.Some? ==> 2 * |r.value| == |s| && IsHexString(s)
    decreases |s|
  {
    if s == [] then Some([])
    else if |s| == 1 then None
    else
      var hi :- DigitValue(s[0]);
      var lo :- DigitValue(s[1]);
      var rest :- DecodeHex(s[2..]);
      Some([16 * hi + lo] + rest)
  }

  /** A digit character is determined by its value. */
  lemma DigitCharOfValue(c: char)
    requires IsHexChar(c)
    ensures DigitChar(DigitValue(c).value) == c
  {
  }

  /** Decoding undoes encoding. */
  lemma {:induction false} DecodeEncode(bs: seq<Byte>)
    ensures DecodeHex(EncodeHex(bs)) == Some(bs)
    decreases |bs|
  {
    if bs != [] {
      var s := EncodeHex(bs);
      var b := bs[0];
      DecodeEncode(bs[1..]);
      assert s[..2] == Hex2(b) && s[2..] == EncodeHex(bs[1..]);
      assert DigitValue(s[0]) == Some(b / 16);
      assert DigitValue(s[1]) == Some(b % 16);
      assert DecodeHex(s) == Some([b] + bs[1..]);
      assert [b] + bs[1..] == bs;
    }
  }

  /** Encoding undoes decoding: a string is accepted only in the exact form the
      encoder writes it. */
  lemma {:induction false} EncodeDecode(s: string)
    requires DecodeHex(s).Some?
    ensures EncodeHex(DecodeHex(s).value) == s
    decreases |s|
  {
    if s != [] {
      var hi, lo := DigitValue(s[0]).value, DigitValue(s[1]).value;
      var rest := DecodeHex(s[2..]).value;
      var b := 16 * hi + lo;
      var bs := [b] + rest;
      assert DecodeHex(s).value == bs;
      EncodeDecode(s[2..]);
      assert bs[1..] == rest;
      assert EncodeHex(bs) == Hex2(b) + s[2..];
      assert b / 16 == hi && b % 16 == lo;
      DigitCharOfValue(s[0]);
      DigitCharOfValue(s[1]);
      assert Hex2(b) == s[..2];
      assert s == s[..2] + s[2..];
    }
  }
}
