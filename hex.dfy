/** Lower-case hexadecimal text of a byte string, as the `hex` crate's `encode`
    produces it, with its inverse. */
module Hex {
  import opened Wrappers

  const Digits: string := "0123456789abcdef"

  /** One of the sixteen lower-case hexadecimal digits. */
  predicate IsDigit(c: char) {
    '0' <= c <= '9' || 'a' <= c <= 'f'
  }

  /** Two digits per byte, high nibble first. */
  function Encode(b: seq<byte>): (s: string)
    ensures |s| == 2 * |b|
    ensures forall i :: 0 <= i < |s| ==> IsDigit(s[i])
  {
    if b == [] then [] else [Digits[b[0] / 16], Digits[b[0] % 16]] + Encode(b[1..])
  }

  function DigitValue(c: char): (r: Option<nat>)
    ensures r.Some? ==> r.value < 16
  {
    if '0' <= c <= '9' then Some(c as int - '0' as int)
    else if 'a' <= c <= 'f' then Some(c as int - 'a' as int + 10)
    else None
  }

  /** The bytes a hexadecimal string of even length denotes. */
  function Decode(s: string): Option<seq<byte>>
  {
    if |s| == 0 then Some([])
    else if |s| == 1 then None
    else
      var h, l, rest := DigitValue(s[0]), DigitValue(s[1]), Decode(s[2..]);
      if h.Some? && l.Some? && rest.Some? then Some([h.value * 16 + l.value] + rest.value) else None
  }

  lemma DigitValueOfDigit(n: nat)
    requires n < 16
    ensures DigitValue(Digits[n]) == Some(n)
  {
    if n < 10 {
      assert Digits[n] as int == '0' as int + n;
    } else {
      assert Digits[n] as int == 'a' as int + n - 10;
    }
  }

  /** Digits `2i` and `2i + 1` are the high and low nibble of byte `i`. */
  lemma {:induction false} EncodeAt(b: seq<byte>, i: nat)
    requires i < |b|
    ensures Encode(b)[2 * i] == Digits[b[i] / 16] && Encode(b)[2 * i + 1] == Digits[b[i] % 16]
  {
    if i > 0 {
      EncodeAt(b[1..], i - 1);
    }
  }

  /** Decoding the hex text gives back the original bytes. */
  lemma {:induction false} DecodeEncode(b: seq<byte>)
    ensures Decode(Encode(b)) == Some(b)
  {
    if b != [] {
      var hi, lo := b[0] / 16, b[0] % 16;
      var s := Encode(b);
      DigitValueOfDigit(hi);
      DigitValueOfDigit(lo);
      assert s == [Digits[hi], Digits[lo]] + Encode(b[1..]);
      assert s[2..] == Encode(b[1..]);
      DecodeEncode(b[1..]);
      assert Decode(s) == Some([hi * 16 + lo] + b[1..]);
      assert [hi * 16 + lo] + b[1..] == b;
    }
  }

  /** Different byte strings have different hex texts. */
  lemma EncodeInjective(a: seq<byte>, b: seq<byte>)
    requires Encode(a) == Encode(b)
    ensures a == b
  {
    DecodeEncode(a);
    DecodeEncode(b);
  }
}
