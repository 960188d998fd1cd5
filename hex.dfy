/**
 * Go's `encoding/hex`: `EncodeToString` as `calculateImageHash` uses it,
 * and `DecodeString` as its inverse.
 */
module Hex {
  import opened Wrappers

  newtype byte = x: int | 0 <= x < 256

  /** Go's `hextable`: lower-case digits. */
  const HexTable: string := "0123456789abcdef"

  /** Two characters per byte, high nibble first, from `HexTable`. */
  function EncodeToString(src: seq<byte>): (r: string)
    ensures |r| == 2 * |src|
  {
    if src == [] then ""
    else [HexTable[src[0] as int / 16], HexTable[src[0] as int % 16]] + EncodeToString(src[1..])
  }

  /** Every character of an encoding is a lower-case hex digit. */
  lemma {:induction false} EncodeDigits(src: seq<byte>)
    ensures forall i :: 0 <= i < |EncodeToString(src)| ==> EncodeToString(src)[i] in HexTable
  {
    if src != [] {
      var v := src[0] as int;
      var rest := EncodeToString(src[1..]);
      EncodeDigits(src[1..]);
      assert EncodeToString(src) == [HexTable[v / 16], HexTable[v % 16]] + rest;
    }
  }

  /** Go's `fromHexChar`: both letter cases are accepted. */
  function FromHexChar(c: char): (r: Option<int>)
    ensures r.Some? ==> 0 <= r.value < 16
  {
    if '0' <= c <= '9' then Some(c as int - '0' as int)
    else if 'a' <= c <= 'f' then Some(c as int - 'a' as int + 10)
    else if 'A' <= c <= 'F' then Some(c as int - 'A' as int + 10)
    else None
  }

  /** `hex.DecodeString`; an odd length or a non-hex character gives None. */
  function DecodeString(s: string): (r: Option<seq<byte>>)
    ensures r.Some? ==> 2 * |r.value| == |s|
  {
    if s == [] then Some([])
    else if |s| == 1 then None
    else
      match (FromHexChar(s[0]), FromHexChar(s[1]), DecodeString(s[2..]))
      case (Some(hi), Some(lo), Some(rest)) => Some([(hi * 16 + lo) as byte] + rest)
      case _ => None
  }

  /** Every table digit reads back as its own position. */
  lemma FromHexTable(d: int)
    requires 0 <= d < 16
    ensures FromHexChar(HexTable[d]) == Some(d)
  {
  }

  /** Decoding undoes encoding. */
  lemma {:induction false} DecodeEncode(b: seq<byte>)
    ensures DecodeString(EncodeToString(b)) == Some(b)
  {
    if b != [] {
      var s := EncodeToString(b);
      var v := b[0] as int;
      var rest := EncodeToString(b[1..]);
      assert s == [HexTable[v / 16], HexTable[v % 16]] + rest;
      assert s[0] == HexTable[v / 16] && s[1] == HexTable[v % 16] && s[2..] == rest;
      FromHexTable(v / 16);
      FromHexTable(v % 16);
      DecodeEncode(b[1..]);
      assert (v / 16 * 16 + v % 16) as byte == b[0];
      assert DecodeString(s) == Some([b[0]] + b[1..]);
      assert [b[0]] + b[1..] == b;
    }
  }

  /** Distinct byte sequences have distinct encodings. */
  lemma EncodeInjective(a: seq<byte>, b: seq<byte>)
    requires EncodeToString(a) == EncodeToString(b)
    ensures a == b
  {
    DecodeEncode(a);
    DecodeEncode(b);
  }
}
