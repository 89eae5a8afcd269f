/** Byte-level codecs the pack frame is made of: big-endian integers and hexadecimal text. */
module Encoding {

  type Byte = x: int | 0 <= x < 256

  const U64_LIMIT := 0x1_0000_0000_0000_0000

  type U64 = x: int | 0 <= x < U64_LIMIT

  datatype Option<+T> = None | Some(value: T)

  function Min(a: nat, b: nat): nat {
    if a <= b then a else b
  }

  /** `n` as exactly `width` bytes, most significant first. */
  function BigEndian(n: nat, width: nat): (bytes: seq<Byte>)
    ensures |bytes| == width
  {
    if width == 0 then [] else BigEndian(n / 256, width - 1) + [n % 256]
  }

  function FromBigEndian(bytes: seq<Byte>): nat {
    if bytes == [] then 0 else 256 * FromBigEndian(bytes[..|bytes| - 1]) + bytes[|bytes| - 1]
  }

  /** The number of values `width` bytes can hold. */
  function Capacity(width: nat): (c: nat)
    ensures 0 < c
  {
    if width == 0 then 1 else 256 * Capacity(width - 1)
  }

  lemma SplitByte(n: nat, capacity: nat)
    requires n < 256 * capacity
    ensures n / 256 < capacity && n == 256 * (n / 256) + n % 256
  {
  }

  lemma {:induction false} FromBigEndianOfBigEndian(n: nat, width: nat)
    requires n < Capacity(width)
    ensures FromBigEndian(BigEndian(n, width)) == n
  {
    if width > 0 {
      SplitByte(n, Capacity(width - 1));
      FromBigEndianOfBigEndian(n / 256, width - 1);
      var high := BigEndian(n / 256, width - 1);
      assert BigEndian(n, width) == high + [n % 256];
      hide BigEndian;
      assert (high + [n % 256])[..width - 1] == high;
    }
  }

  lemma {:induction false} BigEndianOfFromBigEndian(bytes: seq<Byte>)
    ensures FromBigEndian(bytes) < Capacity(|bytes|)
    ensures BigEndian(FromBigEndian(bytes), |bytes|) == bytes
  {
    if bytes != [] {
      var init := bytes[..|bytes| - 1];
      BigEndianOfFromBigEndian(init);
      assert FromBigEndian(bytes) / 256 == FromBigEndian(init);
      assert init + [bytes[|bytes| - 1]] == bytes;
    }
  }

  lemma EightBytesHoldU64()
    ensures Capacity(8) == U64_LIMIT
  {
  }

  function HexDigit(n: int): char
    requires 0 <= n < 16
  {
    if n < 10 then '0' + n as char else 'a' + (n - 10) as char
  }

  /** Upper-case digits decode as well, as the hexadecimal codec in use accepts both. */
  function HexValue(c: char): (v: Option<int>)
    ensures v.Some? ==> 0 <= v.value < 16
  {
    if '0' <= c <= '9' then Some(c as int - '0' as int)
    else if 'a' <= c <= 'f' then Some(c as int - 'a' as int + 10)
    else if 'A' <= c <= 'F' then Some(c as int - 'A' as int + 10)
    else None
  }

  predicate IsLowerHex(c: char) {
    '0' <= c <= '9' || 'a' <= c <= 'f'
  }

  function EncodeHex(bytes: seq<Byte>): (text: string)
    ensures |text| == 2 * |bytes|
  {
    if bytes == [] then []
    else [HexDigit(bytes[0] / 16), HexDigit(bytes[0] % 16)] + EncodeHex(bytes[1..])
  }

  function DecodeHex(text: string): (bytes: Option<seq<Byte>>)
    ensures bytes.Some? ==> |text| == 2 * |bytes.value|
  {
    if text == [] then Some([])
    else if |text| == 1 then None
    else
      match (HexValue(text[0]), HexValue(text[1]), DecodeHex(text[2..]))
      case (Some(high), Some(low), Some(rest)) => Some([16 * high + low] + rest)
      case _ => None
  }

  lemma HexDigitValue(n: int)
    requires 0 <= n < 16
    ensures HexValue(HexDigit(n)) == Some(n) && IsLowerHex(HexDigit(n))
  {
  }

  /** Two digits in front of a text that decodes. */
  lemma DecodeHexPair(high: char, low: char, text: string)
    requires HexValue(high).Some? && HexValue(low).Some? && DecodeHex(text).Some?
    ensures DecodeHex([high, low] + text)
         == Some([16 * HexValue(high).value + HexValue(low).value] + DecodeHex(text).value)
  {
    assert ([high, low] + text)[2..] == text;
  }

  lemma {:induction false} DecodeHexOfEncodeHex(bytes: seq<Byte>)
    ensures DecodeHex(EncodeHex(bytes)) == Some(bytes)
    ensures forall i | 0 <= i < |EncodeHex(bytes)| :: IsLowerHex(EncodeHex(bytes)[i])
  {
    if bytes != [] {
      HexDigitValue(bytes[0] / 16);
      HexDigitValue(bytes[0] % 16);
      DecodeHexOfEncodeHex(bytes[1..]);
      DecodeHexPair(HexDigit(bytes[0] / 16), HexDigit(bytes[0] % 16), EncodeHex(bytes[1..]));
      assert [bytes[0]] + bytes[1..] == bytes;
    }
  }

  lemma LowerHexValue(c: char)
    requires IsLowerHex(c)
    ensures HexValue(c).Some? && HexDigit(HexValue(c).value) == c
  {
  }

  lemma EncodeHexPair(high: int, low: int, rest: seq<Byte>)
    requires 0 <= high < 16 && 0 <= low < 16
    ensures EncodeHex([16 * high + low] + rest) == [HexDigit(high), HexDigit(low)] + EncodeHex(rest)
  {
  }

  lemma {:induction false} EncodeHexOfDecodeHex(text: string)
    requires |text| % 2 == 0
    requires forall i | 0 <= i < |text| :: IsLowerHex(text[i])
    ensures DecodeHex(text).Some? && EncodeHex(DecodeHex(text).value) == text
  {
    if text != [] {
      hide DecodeHex;
      hide EncodeHex;
      LowerHexValue(text[0]);
      LowerHexValue(text[1]);
      hide HexValue;
      hide HexDigit;
      EncodeHexOfDecodeHex(text[2..]);
      assert text == [text[0], text[1]] + text[2..];
      DecodeHexPair(text[0], text[1], text[2..]);
      EncodeHexPair(HexValue(text[0]).value, HexValue(text[1]).value, DecodeHex(text[2..]).value);
    }
  }
}
