/** The DER encoding of a value with a one-octet identifier and a definite length,
    and what the cursor of module Der reads back from it. This is the reference the
    decoders' round-trip lemmas are stated against. */
module DerEncoding {
  import opened Wrappers
  import opened Der

  /** Four length octets at most: the longest form the cursor accepts. */
  const MaxLength: nat := 0x1_0000_0000

  lemma Pow256Values()
    ensures Pow256(1) == 0x100 && Pow256(2) == 0x1_0000
    ensures Pow256(3) == 0x100_0000 && Pow256(4) == 0x1_0000_0000
  {
    assert Pow256(1) == 256;
    assert Pow256(2) == 256 * 256;
    assert Pow256(3) == 256 * 256 * 256;
  }

  /** `k` octets holding `n`, most significant first. */
  function BigEndianOctets(n: nat, k: nat): (r: seq<byte>)
    requires n < Pow256(k)
    ensures |r| == k
  {
    if k == 0 then [] else BigEndianOctets(n / 256, k - 1) + [n % 256]
  }

  lemma {:induction false} BigEndianRoundTrip(n: nat, k: nat)
    requires n < Pow256(k)
    ensures BigEndian(BigEndianOctets(n, k)) == n
  {
    if k > 0 {
      var r := BigEndianOctets(n, k);
      assert r[..|r| - 1] == BigEndianOctets(n / 256, k - 1);
      BigEndianRoundTrip(n / 256, k - 1);
    }
  }

  function LongFormOctets(n: nat): (k: nat)
    requires 128 <= n < MaxLength
    ensures 1 <= k <= 4
  {
    if n < 0x100 then 1 else if n < 0x1_0000 then 2 else if n < 0x100_0000 then 3 else 4
  }

  /** The shortest definite length octets for `n`. */
  function LengthOctets(n: nat): (r: seq<byte>)
    requires n < MaxLength
    ensures 1 <= |r| <= 5
  {
    if n < 128 then [n]
    else
      Pow256Values();
      var k := LongFormOctets(n);
      [0x80 + k] + BigEndianOctets(n, k)
  }

  lemma ParseLengthOctets(n: nat, rest: seq<byte>)
    requires n < MaxLength
    ensures ParseLength(LengthOctets(n) + rest) == Ok(LengthRead(n, rest))
  {
    var s := LengthOctets(n) + rest;
    if n >= 128 {
      Pow256Values();
      var k := LongFormOctets(n);
      assert s[0] == 0x80 + k;
      var t := s[1..];
      assert t[..k] == BigEndianOctets(n, k);
      BigEndianRoundTrip(n, k);
      assert t[k..] == rest;
      assert LongFormLength(t, k) == Ok(LengthRead(n, rest));
    }
  }

  /** Identifier `id`, then length, then content. */
  function Tlv(id: byte, content: seq<byte>): (r: seq<byte>)
    requires ValueTag(id) && |content| < MaxLength
    ensures |content| + 2 <= |r| <= |content| + 6
  {
    [id] + LengthOctets(|content|) + content
  }

  /** A short content needs one length octet. */
  lemma TlvShort(id: byte, content: seq<byte>)
    requires ValueTag(id) && |content| < 128
    ensures Tlv(id, content) == [id, |content|] + content
  {
  }

  lemma ParseHeaderTlv(id: byte, content: seq<byte>, rest: seq<byte>)
    requires ValueTag(id) && |content| < MaxLength
    ensures (Tlv(id, content) + rest)[0] == id
    ensures ParseHeader(Tlv(id, content) + rest)
         == Ok(Header([TagOctet(id)], IsConstructed(id), content, rest))
  {
    var s := Tlv(id, content) + rest;
    var l := LengthOctets(|content|);
    assert s[1..] == l + (content + rest);
    ParseLengthOctets(|content|, content + rest);
    assert (content + rest)[..|content|] == content;
    assert (content + rest)[|content|..] == rest;
  }

  lemma {:induction false} BigEndianBound(x: seq<byte>)
    ensures BigEndian(x) < Pow256(|x|)
  {
    if x != [] {
      BigEndianBound(x[..|x| - 1]);
    }
  }

  /** The octets of a long-form length are the big-endian octets of the length they hold. */
  lemma {:induction false} BigEndianOctetsOf(x: seq<byte>)
    ensures BigEndian(x) < Pow256(|x|)
    ensures BigEndianOctets(BigEndian(x), |x|) == x
  {
    BigEndianBound(x);
    if x != [] {
      var init := x[..|x| - 1];
      BigEndianOctetsOf(init);
      var n := BigEndian(x);
      assert n / 256 == BigEndian(init) && n % 256 == x[|x| - 1];
      assert x == init + [x[|x| - 1]];
    }
  }

  /** Every length the cursor accepts was written in its shortest form. */
  lemma LengthOctetsOf(s: seq<byte>)
    requires ParseLength(s).Ok?
    ensures ParseLength(s).value.length < MaxLength
    ensures s == LengthOctets(ParseLength(s).value.length) + ParseLength(s).value.rest
  {
    if s[0] >= 0x80 {
      LongFormLengthOctetsOf(s);
    } else {
      assert s == [s[0]] + s[1..];
    }
  }

  lemma LongFormLengthOctetsOf(s: seq<byte>)
    requires ParseLength(s).Ok? && s[0] >= 0x80
    ensures ParseLength(s).value.length < MaxLength
    ensures s == LengthOctets(ParseLength(s).value.length) + ParseLength(s).value.rest
  {
    var k: nat := (s[0] - 0x80) as nat;
    LongFormParts(s, k);
    LongFormFromParts(s, k, s[1..1 + k], s[1 + k..]);
  }

  /** Helper: what `ParseLength` read from a long form of `k` octets. */
  lemma LongFormParts(s: seq<byte>, k: nat)
    requires ParseLength(s).Ok? && s[0] >= 0x80 && k == (s[0] - 0x80) as nat
    ensures 1 <= k <= 4 && k < |s|
    ensures MinimumLongForm(k) <= BigEndian(s[1..1 + k])
    ensures ParseLength(s).value == LengthRead(BigEndian(s[1..1 + k]), s[1 + k..])
    ensures s == [s[0]] + s[1..1 + k] + s[1 + k..]
  {
    var t := s[1..];
    assert ParseLength(s) == LongFormLength(t, k);
    assert t[..k] == s[1..1 + k] && t[k..] == s[1 + k..];
    assert s == [s[0]] + t;
  }

  /** Helper: a long form of `k` octets holding a length that needs them is the
      shortest encoding of that length. */
  lemma LongFormFromParts(s: seq<byte>, k: nat, x: seq<byte>, rest: seq<byte>)
    requires 1 <= k <= 4 && |x| == k && s == [(0x80 + k) as byte] + x + rest
    requires MinimumLongForm(k) <= BigEndian(x)
    ensures BigEndian(x) < MaxLength && s == LengthOctets(BigEndian(x)) + rest
  {
    BigEndianOctetsOf(x);
    LongFormOctetsCount(BigEndian(x), k);
  }

  /** A length between the least a long form of `k` octets may carry and `256^k` is
      written with exactly `k` octets. */
  lemma LongFormOctetsCount(n: nat, k: nat)
    requires 1 <= k <= 4 && MinimumLongForm(k) <= n < Pow256(k)
    ensures n < MaxLength && LongFormOctets(n) == k
  {
    Pow256Values();
  }

  /** Helper: a header with a one-octet identifier is that octet, then length octets,
      then the content and what follows it. */
  lemma ParseHeaderParts(s: seq<byte>)
    requires ParseHeader(s).Ok? && SingleOctetTag(TagOctet(s[0]))
    ensures ValueTag(s[0]) && ParseLength(s[1..]).Ok?
    ensures |ParseHeader(s).value.content| == ParseLength(s[1..]).value.length
    ensures ParseLength(s[1..]).value.rest == ParseHeader(s).value.content + ParseHeader(s).value.rest
  {
    assert TagOctet(s[0]) % 32 == s[0] % 32;
    var tr := ParseTag(s).value;
    assert tr.rest == s[1..];
    var l := ParseLength(tr.rest).value;
    assert ParseHeader(s).value == Header(tr.tag, tr.constructed, l.rest[..l.length], l.rest[l.length..]);
    assert l.rest == l.rest[..l.length] + l.rest[l.length..];
  }

  /** The converse of ParseHeaderTlv: every value the cursor reads with a one-octet
      identifier is the `Tlv` encoding of its identifier and content, so the encodings
      of this module are the only inputs the decoders accept. */
  lemma ParseHeaderIsTlv(s: seq<byte>)
    requires ParseHeader(s).Ok? && SingleOctetTag(TagOctet(s[0]))
    ensures ValueTag(s[0]) && |ParseHeader(s).value.content| < MaxLength
    ensures s == Tlv(s[0], ParseHeader(s).value.content) + ParseHeader(s).value.rest
  {
    ParseHeaderParts(s);
    LengthOctetsOf(s[1..]);
    var id, h := s[0], ParseHeader(s).value;
    var lengthOctets := LengthOctets(|h.content|);
    assert s[1..] == lengthOctets + (h.content + h.rest);
    assert Tlv(id, h.content) == [id] + lengthOctets + h.content;
    PrependSplit(s, lengthOctets, h.content, h.rest);
  }

  /** Helper: the octet at the front, then the three parts of the tail. */
  lemma PrependSplit(s: seq<byte>, a: seq<byte>, b: seq<byte>, c: seq<byte>)
    requires |s| > 0 && s[1..] == a + (b + c)
    ensures s == [s[0]] + a + b + c
  {
    assert s == [s[0]] + s[1..];
  }

  /** The header of a value with a one-octet identifier `id`. */
  predicate HeaderIs(s: seq<byte>, id: byte, content: seq<byte>, rest: seq<byte>) {
    |s| > 0 && s[0] == id && ParseHeader(s) == Ok(Header([TagOctet(id)], IsConstructed(id), content, rest))
  }

  lemma TakeOptConstructedIfHeader(s: seq<byte>, id: byte, content: seq<byte>, rest: seq<byte>, t: byte)
    requires HeaderIs(s, id, content, rest) && SingleOctetTag(t) && !IsConstructed(t)
    ensures id == t + 32 ==> TakeOptConstructedIf(s, t) == Ok(Some(Taken(content, rest)))
    ensures TagOctet(id) != t ==> TakeOptConstructedIf(s, t) == Ok(None)
    ensures id == t ==> TakeOptConstructedIf(s, t).Err?
  {
    if id == t + 32 {
      ConstructedForm(t);
      TakeOptValueIfHeader(s, id, content, rest, t);
      TakeOptConstructedIfFromValue(s, t, Header([t], true, content, rest));
    } else if id == t {
      TakeOptValueIfHeader(s, id, content, rest, t);
      TakeOptConstructedIfFromValue(s, t, Header([t], false, content, rest));
    }
  }

  /** The constructed form of a primitive identifier `t` is `t + 32`. */
  lemma ConstructedForm(t: byte)
    requires !IsConstructed(t) && t + 32 < 256
    ensures IsConstructed((t + 32) as byte) && TagOctet((t + 32) as byte) == t
  {
    assert (t + 32) % 64 == t % 64 + 32;
  }

  /** Helper: `TakeOptConstructedIf` once the next value's header is known. */
  lemma TakeOptConstructedIfFromValue(s: seq<byte>, t: byte, h: Header)
    requires SingleOctetTag(t) && TakeOptValueIf(s, t) == Ok(Some(h))
    ensures h.constructed ==> TakeOptConstructedIf(s, t) == Ok(Some(Taken(h.content, h.rest)))
    ensures !h.constructed ==> TakeOptConstructedIf(s, t).Err?
  {
  }

  lemma TakeOptValueIfHeader(s: seq<byte>, id: byte, content: seq<byte>, rest: seq<byte>, t: byte)
    requires HeaderIs(s, id, content, rest) && SingleOctetTag(t) && TagOctet(id) == t
    ensures TakeOptValueIf(s, t) == Ok(Some(Header([t], IsConstructed(id), content, rest)))
  {
  }

  lemma TakeConstructedIfHeader(s: seq<byte>, id: byte, content: seq<byte>, rest: seq<byte>, t: byte)
    requires HeaderIs(s, id, content, rest) && SingleOctetTag(t) && !IsConstructed(t)
    ensures TakeConstructedIf(s, t).Ok? <==> id == t + 32
    ensures id == t + 32 ==> TakeConstructedIf(s, t) == Ok(Taken(content, rest))
  {
    TakeOptConstructedIfHeader(s, id, content, rest, t);
  }

  lemma TakePrimitiveIfHeader(s: seq<byte>, id: byte, content: seq<byte>, rest: seq<byte>, t: byte)
    requires HeaderIs(s, id, content, rest) && SingleOctetTag(t) && !IsConstructed(t)
    ensures TakePrimitiveIf(s, t).Ok? <==> id == t
    ensures id == t ==> TakePrimitiveIf(s, t) == Ok(Taken(content, rest))
  {
  }

  lemma TakeOptConstructedIfTlv(id: byte, content: seq<byte>, rest: seq<byte>, t: byte)
    requires ValueTag(id) && |content| < MaxLength && SingleOctetTag(t) && !IsConstructed(t)
    ensures id == t + 32 ==> TakeOptConstructedIf(Tlv(id, content) + rest, t) == Ok(Some(Taken(content, rest)))
    ensures TagOctet(id) != t ==> TakeOptConstructedIf(Tlv(id, content) + rest, t) == Ok(None)
    ensures id == t ==> TakeOptConstructedIf(Tlv(id, content) + rest, t).Err?
  {
    ParseHeaderTlv(id, content, rest);
    TakeOptConstructedIfHeader(Tlv(id, content) + rest, id, content, rest, t);
  }

  lemma TakeConstructedIfTlv(id: byte, content: seq<byte>, rest: seq<byte>, t: byte)
    requires ValueTag(id) && |content| < MaxLength && SingleOctetTag(t) && !IsConstructed(t)
    ensures TakeConstructedIf(Tlv(id, content) + rest, t).Ok? <==> id == t + 32
    ensures id == t + 32 ==> TakeConstructedIf(Tlv(id, content) + rest, t) == Ok(Taken(content, rest))
  {
    ParseHeaderTlv(id, content, rest);
    TakeConstructedIfHeader(Tlv(id, content) + rest, id, content, rest, t);
  }

  lemma TakePrimitiveIfTlv(id: byte, content: seq<byte>, rest: seq<byte>, t: byte)
    requires ValueTag(id) && |content| < MaxLength && SingleOctetTag(t) && !IsConstructed(t)
    ensures TakePrimitiveIf(Tlv(id, content) + rest, t).Ok? <==> id == t
    ensures id == t ==> TakePrimitiveIf(Tlv(id, content) + rest, t) == Ok(Taken(content, rest))
  {
    ParseHeaderTlv(id, content, rest);
    TakePrimitiveIfHeader(Tlv(id, content) + rest, id, content, rest, t);
  }

  lemma TakePrimitiveTlv(id: byte, content: seq<byte>, rest: seq<byte>)
    requires ValueTag(id) && |content| < MaxLength
    ensures TakePrimitive(Tlv(id, content) + rest).Ok? <==> !IsConstructed(id)
    ensures !IsConstructed(id) ==> TakePrimitive(Tlv(id, content) + rest) == Ok(Taken(content, rest))
  {
    ParseHeaderTlv(id, content, rest);
  }

  /** A value is well-formed when it is primitive, or constructed from well-formed values. */
  predicate WellFormedTlv(id: byte, content: seq<byte>) {
    !IsConstructed(id) || SkipAll(content).Ok?
  }

  lemma SkipOneTlv(id: byte, content: seq<byte>, rest: seq<byte>)
    requires ValueTag(id) && |content| < MaxLength
    ensures SkipOne(Tlv(id, content) + rest).Ok? <==> WellFormedTlv(id, content)
    ensures WellFormedTlv(id, content) ==> SkipOne(Tlv(id, content) + rest) == Ok(rest)
  {
    ParseHeaderTlv(id, content, rest);
  }

  lemma SkipAllTlv(id: byte, content: seq<byte>, rest: seq<byte>)
    requires ValueTag(id) && |content| < MaxLength
    ensures SkipAll(Tlv(id, content) + rest).Ok? <==> WellFormedTlv(id, content) && SkipAll(rest).Ok?
  {
    SkipOneTlv(id, content, rest);
  }

  lemma TakeSequenceTlv(content: seq<byte>, rest: seq<byte>)
    requires |content| < MaxLength
    ensures TakeSequence(Tlv(0x30, content) + rest) == Ok(Taken(content, rest))
  {
    TakeConstructedIfTlv(0x30, content, rest, SEQUENCE);
  }

  lemma CaptureOneTlv(id: byte, content: seq<byte>, rest: seq<byte>)
    requires ValueTag(id) && |content| < MaxLength && WellFormedTlv(id, content)
    ensures CaptureOne(Tlv(id, content) + rest) == Ok(Taken(Tlv(id, content), rest))
  {
    SkipOneTlv(id, content, rest);
    var s := Tlv(id, content) + rest;
    assert s[..|s| - |rest|] == Tlv(id, content);
  }
}
