/** UTF-8 as Rust's `String::from_utf8` accepts it: shortest forms only, no
    surrogates, nothing above U+10FFFF. `Decode` is the check; `Encode` is its
    inverse. */
module Utf8 {
  import opened Wrappers

  predicate IsContinuation(b: byte) {
    0x80 <= b <= 0xBF
  }

  /** The six payload bits of a continuation octet. */
  function Low6(b: byte): int {
    b as int - 0x80
  }

  /** Allowed second octets of a three-octet form: E0 excludes overlong forms and ED
      excludes the surrogates. */
  predicate SecondOfThree(b0: byte, b1: byte) {
    if b0 == 0xE0 then 0xA0 <= b1 <= 0xBF
    else if b0 == 0xED then 0x80 <= b1 <= 0x9F
    else IsContinuation(b1)
  }

  /** Allowed second octets of a four-octet form: F0 excludes overlong forms and F4
      everything above U+10FFFF. */
  predicate SecondOfFour(b0: byte, b1: byte) {
    if b0 == 0xF0 then 0x90 <= b1 <= 0xBF
    else if b0 == 0xF4 then 0x80 <= b1 <= 0x8F
    else IsContinuation(b1)
  }

  /** The scalar value encoded at the start of `b` and the number of octets it takes. */
  function DecodeFirst(b: seq<byte>): (r: Option<(char, nat)>)
    requires |b| > 0
    ensures r.Some? ==> 1 <= r.value.1 <= |b| && r.value.1 <= 4
  {
    var b0: int := b[0];
    if b0 < 0x80 then Some((b0 as char, 1))
    else if 0xC2 <= b0 <= 0xDF then
      if |b| >= 2 && IsContinuation(b[1])
      then Some((((b0 - 0xC0) * 64 + Low6(b[1])) as char, 2))
      else None
    else if 0xE0 <= b0 <= 0xEF then
      if |b| >= 3 && SecondOfThree(b0, b[1]) && IsContinuation(b[2])
      then Some((((b0 - 0xE0) * 4096 + Low6(b[1]) * 64 + Low6(b[2])) as char, 3))
      else None
    else if 0xF0 <= b0 <= 0xF4 then
      if |b| >= 4 && SecondOfFour(b0, b[1]) && IsContinuation(b[2]) && IsContinuation(b[3])
      then Some((((b0 - 0xF0) * 262144 + Low6(b[1]) * 4096 + Low6(b[2]) * 64 + Low6(b[3])) as char, 4))
      else None
    else None
  }

  /** The text a byte string holds, or `None` when it is not valid UTF-8. */
  function Decode(b: seq<byte>): Option<string>
    decreases |b|
  {
    if b == [] then Some([])
    else
      match DecodeFirst(b)
      case None => None
      case Some((c, n)) =>
        match Decode(b[n..])
        case None => None
        case Some(cs) => Some([c] + cs)
  }

  /** The shortest UTF-8 form of one scalar value. */
  function EncodeScalar(c: char): (r: seq<byte>)
    ensures 1 <= |r| <= 4
  {
    var n := c as int;
    if n < 0x80 then [n]
    else if n < 0x800 then [0xC0 + n / 64, 0x80 + n % 64]
    else if n < 0x10000 then [0xE0 + n / 4096, 0x80 + n / 64 % 64, 0x80 + n % 64]
    else [0xF0 + n / 262144, 0x80 + n / 4096 % 64, 0x80 + n / 64 % 64, 0x80 + n % 64]
  }

  function Encode(s: string): seq<byte> {
    if s == [] then [] else EncodeScalar(s[0]) + Encode(s[1..])
  }

  lemma DecodeFirstEncodeScalar(c: char, rest: seq<byte>)
    ensures DecodeFirst(EncodeScalar(c) + rest) == Some((c, |EncodeScalar(c)|))
  {
    var n := c as int;
    if n < 0x80 {
    } else if n < 0x800 {
      DecodeFirstTwo(c, EncodeScalar(c) + rest);
    } else if n < 0x10000 {
      DecodeFirstThree(c, EncodeScalar(c) + rest);
    } else {
      DecodeFirstFour(c, EncodeScalar(c) + rest);
    }
  }

  lemma DecodeFirstTwo(c: char, b: seq<byte>)
    requires 0x80 <= c as int < 0x800
    requires |b| >= 2 && b[..2] == EncodeScalar(c)
    ensures DecodeFirst(b) == Some((c, 2))
  {
    var n := c as int;
    assert b[0] == 0xC0 + n / 64 && b[1] == 0x80 + n % 64 by { assert b[..2][0] == b[0] && b[..2][1] == b[1]; }
    assert (b[0] as int - 0xC0) * 64 + Low6(b[1]) == n;
  }

  lemma DecodeFirstThree(c: char, b: seq<byte>)
    requires 0x800 <= c as int < 0x10000
    requires |b| >= 3 && b[..3] == EncodeScalar(c)
    ensures DecodeFirst(b) == Some((c, 3))
  {
    var n := c as int;
    assert b[0] == 0xE0 + n / 4096 && b[1] == 0x80 + n / 64 % 64 && b[2] == 0x80 + n % 64 by {
      assert b[..3][0] == b[0] && b[..3][1] == b[1] && b[..3][2] == b[2];
    }
    assert n / 64 == (n / 4096) * 64 + n / 64 % 64;
    assert (b[0] as int - 0xE0) * 4096 + Low6(b[1]) * 64 + Low6(b[2]) == n;
  }

  lemma DecodeFirstFour(c: char, b: seq<byte>)
    requires 0x10000 <= c as int
    requires |b| >= 4 && b[..4] == EncodeScalar(c)
    ensures DecodeFirst(b) == Some((c, 4))
  {
    var n := c as int;
    assert b[0] == 0xF0 + n / 262144 && b[1] == 0x80 + n / 4096 % 64 by {
      assert b[..4][0] == b[0] && b[..4][1] == b[1];
    }
    assert b[2] == 0x80 + n / 64 % 64 && b[3] == 0x80 + n % 64 by {
      assert b[..4][2] == b[2] && b[..4][3] == b[3];
    }
    assert n / 4096 == (n / 262144) * 64 + n / 4096 % 64;
    assert n / 64 == (n / 4096) * 64 + n / 64 % 64;
    assert (b[0] as int - 0xF0) * 262144 + Low6(b[1]) * 4096 + Low6(b[2]) * 64 + Low6(b[3]) == n;
  }

  lemma EncodeScalarDecodeFirst(b: seq<byte>)
    requires |b| > 0 && DecodeFirst(b).Some?
    ensures EncodeScalar(DecodeFirst(b).value.0) == b[..DecodeFirst(b).value.1]
  {
    var b0 := b[0];
    if b0 < 0x80 {
    } else if b0 <= 0xDF {
      ReencodeTwo(b);
    } else if b0 <= 0xEF {
      ReencodeThree(b);
    } else {
      ReencodeFour(b);
    }
  }

  lemma ReencodeTwo(b: seq<byte>)
    requires |b| >= 2 && 0xC2 <= b[0] <= 0xDF && IsContinuation(b[1])
    ensures EncodeScalar(((b[0] as int - 0xC0) * 64 + Low6(b[1])) as char) == b[..2]
  {
    EncodeTwo(b[0], b[1]);
    assert b[..2] == [b[0], b[1]];
  }

  lemma ReencodeThree(b: seq<byte>)
    requires |b| >= 3 && 0xE0 <= b[0] <= 0xEF && SecondOfThree(b[0], b[1]) && IsContinuation(b[2])
    ensures EncodeScalar(((b[0] as int - 0xE0) * 4096 + Low6(b[1]) * 64 + Low6(b[2])) as char) == b[..3]
  {
    EncodeThree(b[0], b[1], b[2]);
    assert b[..3] == [b[0], b[1], b[2]];
  }

  lemma ReencodeFour(b: seq<byte>)
    requires |b| >= 4 && 0xF0 <= b[0] <= 0xF4 && SecondOfFour(b[0], b[1]) && IsContinuation(b[2]) && IsContinuation(b[3])
    ensures EncodeScalar(((b[0] as int - 0xF0) * 262144 + Low6(b[1]) * 4096 + Low6(b[2]) * 64 + Low6(b[3])) as char) == b[..4]
  {
    EncodeFour(b[0], b[1], b[2], b[3]);
    assert b[..4] == [b[0], b[1], b[2], b[3]];
  }

  lemma EncodeTwo(b0: byte, b1: byte)
    requires 0xC2 <= b0 <= 0xDF && IsContinuation(b1)
    ensures var n := (b0 as int - 0xC0) * 64 + Low6(b1);
      0x80 <= n < 0x800 && n / 64 == b0 as int - 0xC0 && n % 64 == Low6(b1)
  {
  }

  lemma EncodeThree(b0: byte, b1: byte, b2: byte)
    requires 0xE0 <= b0 <= 0xEF && SecondOfThree(b0, b1) && IsContinuation(b2)
    ensures var n := (b0 as int - 0xE0) * 4096 + Low6(b1) * 64 + Low6(b2);
      0x800 <= n < 0x10000 && n / 4096 == b0 as int - 0xE0 && n / 64 % 64 == Low6(b1) && n % 64 == Low6(b2)
  {
    var n := (b0 as int - 0xE0) * 4096 + Low6(b1) * 64 + Low6(b2);
    assert n / 64 == (b0 as int - 0xE0) * 64 + Low6(b1);
  }

  lemma EncodeFour(b0: byte, b1: byte, b2: byte, b3: byte)
    requires 0xF0 <= b0 <= 0xF4 && SecondOfFour(b0, b1) && IsContinuation(b2) && IsContinuation(b3)
    ensures var n := (b0 as int - 0xF0) * 262144 + Low6(b1) * 4096 + Low6(b2) * 64 + Low6(b3);
      && 0x10000 <= n < 0x110000
      && n / 262144 == b0 as int - 0xF0 && n / 4096 % 64 == Low6(b1)
      && n / 64 % 64 == Low6(b2) && n % 64 == Low6(b3)
  {
    var n := (b0 as int - 0xF0) * 262144 + Low6(b1) * 4096 + Low6(b2) * 64 + Low6(b3);
    assert n / 4096 == (b0 as int - 0xF0) * 64 + Low6(b1);
    assert n / 64 == ((b0 as int - 0xF0) * 64 + Low6(b1)) * 64 + Low6(b2);
  }

  /** Every string's encoding is valid UTF-8 and decodes back to the string. */
  lemma {:induction false} DecodeEncode(s: string)
    ensures Decode(Encode(s)) == Some(s)
  {
    if s != [] {
      var e := EncodeScalar(s[0]);
      DecodeFirstEncodeScalar(s[0], Encode(s[1..]));
      assert (e + Encode(s[1..]))[|e|..] == Encode(s[1..]);
      DecodeEncode(s[1..]);
      assert [s[0]] + s[1..] == s;
    }
  }

  /** One step of `Decode` on valid input: the first scalar, the octets it takes,
      and the rest, which is valid too. */
  lemma DecodeStep(b: seq<byte>) returns (c: char, k: nat)
    requires b != [] && Decode(b).Some?
    ensures 1 <= k <= |b| && b == EncodeScalar(c) + b[k..]
    ensures Decode(b[k..]).Some? && Decode(b).value == [c] + Decode(b[k..]).value
  {
    c, k := DecodeFirst(b).value.0, DecodeFirst(b).value.1;
    EncodeScalarDecodeFirst(b);
    assert b[..k] + b[k..] == b;
  }

  lemma EncodeCons(c: char, cs: string)
    ensures Encode([c] + cs) == EncodeScalar(c) + Encode(cs)
  {
    assert ([c] + cs)[1..] == cs;
  }

  /** Valid UTF-8 is the encoding of the text it decodes to: nothing is normalised. */
  lemma {:induction false} EncodeDecode(b: seq<byte>)
    requires Decode(b).Some?
    ensures Encode(Decode(b).value) == b
    decreases |b|
  {
    if b != [] {
      var c, k := DecodeStep(b);
      EncodeDecode(b[k..]);
      EncodeCons(c, Decode(b[k..]).value);
    }
  }
}
