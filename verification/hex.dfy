/**
 * Lower-case hexadecimal text, as produced by Go's encoding/hex.EncodeToString,
 * together with the decoder that undoes it.
 */
module Hex {
  import opened Wrappers

  newtype byte = x: int | 0 <= x < 256

  predicate IsLowerHexDigit(c: char) {
    '0' <= c <= '9' || 'a' <= c <= 'f'
  }

  /** Every character is one of 0-9 a-f (the regex class [0-9a-f]). */
  predicate IsLowerHex(s: string) {
    forall i | 0 <= i < |s| :: IsLowerHexDigit(s[i])
  }

  /** The n-th character of the alphabet "0123456789abcdef". */
  function Digit(n: nat): (c: char)
    requires n < 16
    ensures IsLowerHexDigit(c)
  {
    if n < 10 then ('0' as int + n) as char else ('a' as int + n - 10) as char
  }

  /** The value of a lower-case hex digit; inverse of Digit. */
  function DigitValue(c: char): (n: nat)
    requires IsLowerHexDigit(c)
    ensures n < 16 && Digit(n) == c
  {
    if c <= '9' then c as int - '0' as int else c as int - 'a' as int + 10
  }

  /** Two digits per byte, high nibble first. */
  function EncodeByte(b: byte): string {
    [Digit(b as nat / 16), Digit(b as nat % 16)]
  }

  /** hex.EncodeToString: each byte becomes its two digits, in order. */
  function EncodeToString(bs: seq<byte>): (r: string)
    ensures |r| == 2 * |bs|
    ensures IsLowerHex(r)
  {
    if bs == [] then [] else EncodeByte(bs[0]) + EncodeToString(bs[1..])
  }

  /** Reads pairs of lower-case hex digits back into bytes; None on odd length or a foreign character. */
  function Decode(s: string): (r: Option<seq<byte>>)
    ensures r.Some? <==> |s| % 2 == 0 && IsLowerHex(s)
    ensures r.Some? ==> |s| == 2 * |r.value| && EncodeToString(r.value) == s
  {
    if s == [] then Some([])
    else if |s| == 1 || !IsLowerHexDigit(s[0]) || !IsLowerHexDigit(s[1]) then None
    else
      LowerHexPair(s);
      match Decode(s[2..])
      case None => None
      case Some(rest) =>
        var b := PairValue(s[0], s[1]);
        assert ([b] + rest)[1..] == rest;
        assert s == EncodeByte(b) + s[2..];
        Some([b] + rest)
  }

  /** The byte spelled by two hex digits. */
  function PairValue(hi: char, lo: char): (b: byte)
    requires IsLowerHexDigit(hi) && IsLowerHexDigit(lo)
    ensures EncodeByte(b) == [hi, lo]
  {
    (16 * DigitValue(hi) + DigitValue(lo)) as byte
  }

  lemma LowerHexPair(s: string)
    requires |s| >= 2
    ensures IsLowerHex(s) <==> IsLowerHexDigit(s[0]) && IsLowerHexDigit(s[1]) && IsLowerHex(s[2..])
  {
    assert forall i | 2 <= i < |s| :: s[i] == s[2..][i - 2];
  }

  /** Decoding undoes encoding. */
  lemma {:induction false} DecodeEncode(bs: seq<byte>)
    ensures Decode(EncodeToString(bs)) == Some(bs)
  {
    if bs != [] {
      var s := EncodeToString(bs);
      DecodeEncode(bs[1..]);
      assert s[2..] == EncodeToString(bs[1..]);
      assert DigitValue(s[0]) == bs[0] as nat / 16;
      assert DigitValue(s[1]) == bs[0] as nat % 16;
      assert [bs[0]] + bs[1..] == bs;
    }
  }

  /** Distinct byte strings have distinct encodings. */
  lemma EncodeInjective(a: seq<byte>, b: seq<byte>)
    requires EncodeToString(a) == EncodeToString(b)
    ensures a == b
  {
    DecodeEncode(a);
    DecodeEncode(b);
  }
}
