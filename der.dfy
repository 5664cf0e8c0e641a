/** A definite-length DER tag-length-value reader: the part of the `bcder` cursor
    (`Constructed`, `Primitive`, `Tag`, `Length`) that the schema decoders use.

    The cursor is a byte sequence: the not yet read content of the constructed value
    being decoded. Every operation returns what it took together with the bytes that
    follow it (`Taken(value, rest)`), so a decoder that chains operations advances
    through the value from left to right, and a decoder whose operation fails has
    consumed nothing. A constructed value is done when its rest is empty; otherwise
    the enclosing read fails with `TrailingData`. */
module Der {
  import opened Wrappers

  datatype Error =
    | EndOfData          // the input ends inside an identifier, length or content
    | MissingValue       // a value is required but the constructed value is exhausted
    | UnexpectedTag      // the next value carries a different tag
    | ExpectedPrimitive  // a constructed value where a primitive one is required
    | ExpectedConstructed // a primitive value where a constructed one is required
    | TagTooLong         // identifier longer than four octets
    | UnsupportedLength  // indefinite length, or more than four length octets
    | NonMinimalLength   // a long-form length that a shorter form could encode
    | ExcessiveLength    // a value longer than what encloses it
    | TrailingData       // content left over after a constructed value was decoded
    | EndOfContents      // identifier 0x00 (end-of-contents) inside definite-length content
    | InvalidInteger     // an INTEGER that is not a minimal encoding of a u8
    | InvalidUtf8        // a string value that is not UTF-8
    | Panicked           // a Rust `expect` or an out-of-range `drain`

  type Decoded<T> = Result<T, Error>

  /** A value taken from the cursor and the bytes that follow it. */
  datatype Taken<T> = Taken(value: T, rest: seq<byte>)

  /** Tags are compared on their first identifier octet with the constructed bit
      cleared, as `bcder::Tag` stores them. */
  const INTEGER: byte := 0x02
  const OID: byte := 0x06
  const SEQUENCE: byte := 0x10
  const CTX_0: byte := 0x80

  /** Bit 6 (0x20) of the first identifier octet marks a constructed encoding. */
  predicate IsConstructed(id: byte) {
    id % 64 >= 32
  }

  function TagOctet(id: byte): (t: byte)
    ensures !IsConstructed(t) && t % 32 == id % 32
    ensures t == id || t + 32 == id
  {
    if IsConstructed(id) then id - 32 else id
  }

  /** A tag number below 31 fits in the first identifier octet. */
  predicate SingleOctetTag(t: byte) {
    t % 32 != 31
  }

  /** The identifiers of the end-of-contents marker (universal tag 0, either form),
      which bcder refuses outside indefinite-length content. */
  predicate EndOfContentsTag(id: byte) {
    id == 0x00 || id == 0x20
  }

  /** A one-octet identifier of a value. */
  predicate ValueTag(id: byte) {
    SingleOctetTag(id) && !EndOfContentsTag(id)
  }

  predicate IsSuffix(r: seq<byte>, s: seq<byte>) {
    |r| <= |s| && r == s[|s| - |r|..]
  }

  /** A suffix and the octets before it make up the whole. */
  lemma SuffixSplit(r: seq<byte>, s: seq<byte>)
    requires IsSuffix(r, s)
    ensures s[..|s| - |r|] + r == s
  {
  }

  /** Dropping octets from the front leaves a suffix. */
  lemma DropIsSuffix(s: seq<byte>, n: nat)
    requires n <= |s|
    ensures IsSuffix(s[n..], s)
  {
  }

  /** Cutting a sequence in two and joining the halves gives it back. */
  lemma SplitAt(s: seq<byte>, n: nat)
    requires n <= |s|
    ensures s[..n] + s[n..] == s
  {
  }

  lemma SuffixTransitive(a: seq<byte>, b: seq<byte>, c: seq<byte>)
    requires IsSuffix(a, b) && IsSuffix(b, c)
    ensures IsSuffix(a, c)
  {
    assert c[|c| - |a|..] == c[|c| - |b|..][|b| - |a|..];
  }

  // ---------------------------------------------------------------------------
  // Identifier and length octets (ITU-T X.690 sections 8.1.2 and 8.1.3)
  // ---------------------------------------------------------------------------

  datatype TagRead = TagRead(tag: seq<byte>, constructed: bool, rest: seq<byte>)

  /** The identifier octets: one octet, or, when its low five bits are all ones, up to
      three further octets of which the last has bit 8 clear. */
  function ParseTag(s: seq<byte>): (r: Decoded<TagRead>)
    ensures r.Ok? ==> IsSuffix(r.value.rest, s) && |r.value.rest| < |s|
    ensures r.Ok? ==> 1 <= |r.value.tag| <= 4 && r.value.tag[0] == TagOctet(s[0])
    ensures r.Ok? ==> r.value.constructed == IsConstructed(s[0])
    ensures r.Ok? && SingleOctetTag(TagOctet(s[0])) ==> r.value.tag == [TagOctet(s[0])] && r.value.rest == s[1..]
  {
    if |s| == 0 then Err(EndOfData)
    else if SingleOctetTag(TagOctet(s[0])) then Ok(TagRead([TagOctet(s[0])], IsConstructed(s[0]), s[1..]))
    else TagContinuation(s[1..], [TagOctet(s[0])], IsConstructed(s[0]))
  }

  function TagContinuation(s: seq<byte>, acc: seq<byte>, constructed: bool): (r: Decoded<TagRead>)
    requires 1 <= |acc| <= 4
    ensures r.Ok? ==> IsSuffix(r.value.rest, s) && |r.value.rest| < |s|
    ensures r.Ok? ==> |acc| < |r.value.tag| <= 4 && r.value.tag[..|acc|] == acc
    ensures r.Ok? ==> r.value.constructed == constructed
    decreases 4 - |acc|
  {
    if |acc| == 4 then Err(TagTooLong)
    else if |s| == 0 then Err(EndOfData)
    else if s[0] < 0x80 then Ok(TagRead(acc + [s[0]], constructed, s[1..]))
    else
      var r := TagContinuation(s[1..], acc + [s[0]], constructed);
      assert r.Ok? ==> r.value.tag[..|acc|] == (acc + [s[0]])[..|acc|];
      if r.Ok? then SuffixTransitive(r.value.rest, s[1..], s); r else r
  }

  /** The number a sequence of big-endian octets denotes. */
  function BigEndian(s: seq<byte>): nat {
    if s == [] then 0 else BigEndian(s[..|s| - 1]) * 256 + s[|s| - 1]
  }

  function Pow256(k: nat): nat {
    if k == 0 then 1 else 256 * Pow256(k - 1)
  }

  /** The smallest length that DER lets a long form of `k` octets carry: a shorter
      form must be used for anything below. */
  function MinimumLongForm(k: nat): nat {
    if k <= 1 then 128 else Pow256(k - 1)
  }

  datatype LengthRead = LengthRead(length: nat, rest: seq<byte>)

  /** Definite length octets in DER mode: the short form below 0x80, or 0x81 to 0x84
      followed by one to four octets holding a length that needs them. The indefinite
      form 0x80 and longer forms are refused. */
  function ParseLength(s: seq<byte>): (r: Decoded<LengthRead>)
    ensures r.Ok? ==> IsSuffix(r.value.rest, s) && |r.value.rest| < |s|
  {
    if |s| == 0 then Err(EndOfData)
    else if s[0] < 0x80 then DropIsSuffix(s, 1); Ok(LengthRead(s[0], s[1..]))
    else if s[0] == 0x80 || s[0] > 0x84 then Err(UnsupportedLength)
    else
      var r := LongFormLength(s[1..], s[0] - 0x80);
      DropIsSuffix(s, 1);
      if r.Ok? then SuffixTransitive(r.value.rest, s[1..], s); r else r
  }

  /** The `k` octets of a long-form length, which must hold a length that needs them. */
  function LongFormLength(s: seq<byte>, k: nat): (r: Decoded<LengthRead>)
    ensures r.Ok? ==> IsSuffix(r.value.rest, s)
  {
    if |s| < k then Err(EndOfData)
    else
      var n := BigEndian(s[..k]);
      if n < MinimumLongForm(k) then Err(NonMinimalLength)
      else DropIsSuffix(s, k); Ok(LengthRead(n, s[k..]))
  }

  /** Identifier, length and content of the next value. */
  datatype Header = Header(tag: seq<byte>, constructed: bool, content: seq<byte>, rest: seq<byte>)

  function ParseHeader(s: seq<byte>): (r: Decoded<Header>)
    ensures r.Ok? ==> |r.value.content| + |r.value.rest| + 2 <= |s|
    ensures r.Ok? ==> 1 <= |r.value.tag| <= 4 && r.value.tag[0] == TagOctet(s[0])
    ensures r.Ok? ==> r.value.constructed == IsConstructed(s[0])
    ensures r.Ok? && SingleOctetTag(TagOctet(s[0])) ==> r.value.tag == [TagOctet(s[0])]
    ensures |s| > 0 && EndOfContentsTag(s[0]) ==> r.Err?
  {
    var t :- ParseTag(s);
    var l :- ParseLength(t.rest);
    if EndOfContentsTag(s[0]) then Err(EndOfContents)
    else if l.length > |l.rest| then Err(ExcessiveLength)
    else Ok(Header(t.tag, t.constructed, l.rest[..l.length], l.rest[l.length..]))
  }

  /** The content and what follows it are the tail of the input. */
  lemma ParseHeaderSuffix(s: seq<byte>)
    requires ParseHeader(s).Ok?
    ensures IsSuffix(ParseHeader(s).value.content + ParseHeader(s).value.rest, s)
  {
    var t := ParseTag(s).value;
    var l := ParseLength(t.rest).value;
    SplitAt(l.rest, l.length);
    SuffixTransitive(l.rest, t.rest, s);
  }

  // ---------------------------------------------------------------------------
  // Cursor operations
  // ---------------------------------------------------------------------------

  /** The next value if it carries tag `t`; `None`, consuming nothing, when the
      cursor is exhausted or the next tag differs (bcder's `process_next_value`). */
  function TakeOptValueIf(s: seq<byte>, t: byte): (r: Decoded<Option<Header>>)
    requires SingleOctetTag(t)
    ensures (|s| == 0 || TagOctet(s[0]) != t) <==> r == Ok(None)
    ensures r.Ok? && r.value.Some? ==> r.value.value.tag == [t]
    ensures r.Ok? && r.value.Some? ==>
              && |r.value.value.content| + |r.value.value.rest| + 2 <= |s|
              && r.value.value.constructed == IsConstructed(s[0])
  {
    if |s| == 0 || TagOctet(s[0]) != t then Ok(None)
    else
      var h :- ParseHeader(s);
      Ok(Some(h))
  }

  /** `take_opt_constructed_if`: the content of the next value when it carries tag `t`;
      a primitive value with that tag is an error. */
  function TakeOptConstructedIf(s: seq<byte>, t: byte): (r: Decoded<Option<Taken<seq<byte>>>>)
    requires SingleOctetTag(t)
    ensures (|s| == 0 || TagOctet(s[0]) != t) <==> r == Ok(None)
    ensures r.Ok? && r.value.Some? ==> s[0] == t + 32
    ensures r.Ok? && r.value.Some? ==>
              |r.value.value.value| + |r.value.value.rest| < |s|
  {
    var o :- TakeOptValueIf(s, t);
    match o
    case None => Ok(None)
    case Some(h) => if !h.constructed then Err(ExpectedConstructed) else Ok(Some(Taken(h.content, h.rest)))
  }

  /** `take_constructed_if`: the content of the next value, which must be constructed
      and carry tag `t`; `take_sequence` is this with `SEQUENCE`. */
  function TakeConstructedIf(s: seq<byte>, t: byte): (r: Decoded<Taken<seq<byte>>>)
    requires SingleOctetTag(t)
    ensures |s| == 0 || s[0] != t + 32 ==> r.Err?
    ensures r.Ok? ==> |r.value.value| + |r.value.rest| < |s|
  {
    var o :- TakeOptConstructedIf(s, t);
    if o.None? then Err(if |s| == 0 then MissingValue else UnexpectedTag) else Ok(o.value)
  }

  function TakeSequence(s: seq<byte>): (r: Decoded<Taken<seq<byte>>>)
    ensures |s| == 0 || s[0] != 0x30 ==> r.Err?
    ensures r.Ok? ==> |r.value.value| + |r.value.rest| < |s|
  {
    TakeConstructedIf(s, SEQUENCE)
  }

  /** `take_primitive_if`: the content of the next value, which must be primitive and
      carry tag `t`. */
  function TakePrimitiveIf(s: seq<byte>, t: byte): (r: Decoded<Taken<seq<byte>>>)
    requires SingleOctetTag(t)
    ensures |s| == 0 || s[0] != t ==> r.Err?
    ensures r.Ok? ==> |r.value.value| + |r.value.rest| < |s|
  {
    var o :- TakeOptValueIf(s, t);
    match o
    case None => Err(if |s| == 0 then MissingValue else UnexpectedTag)
    case Some(h) => if h.constructed then Err(ExpectedPrimitive) else Ok(Taken(h.content, h.rest))
  }

  /** `take_primitive` (and `take_value` followed by `as_primitive`): the content of the
      next value, whatever its tag, which must be primitive. */
  function TakePrimitive(s: seq<byte>): (r: Decoded<Taken<seq<byte>>>)
    ensures |s| == 0 || IsConstructed(s[0]) || EndOfContentsTag(s[0]) ==> r.Err?
    ensures r.Ok? ==> |r.value.value| + |r.value.rest| < |s|
  {
    if |s| == 0 then Err(MissingValue)
    else
      var h :- ParseHeader(s);
      if h.constructed then Err(ExpectedPrimitive) else Ok(Taken(h.content, h.rest))
  }

  /** `skip_one`: steps over the next value of any tag, walking the nested values of a
      constructed one; yields the bytes after it. */
  function SkipOne(s: seq<byte>): (r: Decoded<seq<byte>>)
    ensures |s| == 0 || EndOfContentsTag(s[0]) ==> r.Err?
    ensures r.Ok? ==> |r.value| < |s|
    decreases |s|, 0
  {
    if |s| == 0 then Err(MissingValue)
    else
      var h :- ParseHeader(s);
      if h.constructed then
        var inner :- SkipAll(h.content);
        Ok(h.rest)
      else Ok(h.rest)
  }

  /** What `skip_one` leaves is the tail of its input. */
  lemma SkipOneSuffix(s: seq<byte>)
    requires SkipOne(s).Ok?
    ensures IsSuffix(SkipOne(s).value, s)
  {
    var h := ParseHeader(s).value;
    ParseHeaderSuffix(s);
    SuffixTransitive(h.rest, h.content + h.rest, s);
  }

  /** `skip_all`: steps over every remaining value; succeeds exactly when what is left is
      a well-formed sequence of values. */
  function SkipAll(s: seq<byte>): (r: Decoded<()>)
    decreases |s|, 1
  {
    if |s| == 0 then Ok(())
    else
      var rest :- SkipOne(s);
      SkipAll(rest)
  }

  /** `capture_all`: the remaining bytes, verbatim, provided they are well-formed. */
  function CaptureAll(s: seq<byte>): (r: Decoded<seq<byte>>)
    ensures r.Ok? <==> SkipAll(s).Ok?
    ensures r.Ok? ==> r.value == s
  {
    var u :- SkipAll(s);
    Ok(s)
  }

  /** `capture_one`: the next value of any tag, identifier and length octets included. */
  function CaptureOne(s: seq<byte>): (r: Decoded<Taken<seq<byte>>>)
    ensures r.Ok? ==> r.value.value + r.value.rest == s && |r.value.rest| < |s|
  {
    var rest :- SkipOne(s);
    SkipOneSuffix(s);
    SuffixSplit(rest, s);
    Ok(Taken(s[..|s| - |rest|], rest))
  }

  /** `_ = cons.skip_all()`: the result is discarded, so the cursor moves to the end
      when the rest is well-formed and stays where it is otherwise. */
  function SkipRest(s: seq<byte>): (r: seq<byte>)
    ensures r == [] <==> SkipAll(s).Ok?
    ensures r == [] || r == s
  {
    if SkipAll(s).Ok? then [] else s
  }

  // ---------------------------------------------------------------------------
  // INTEGER content as a u8 (bcder `Primitive::to_u8`)
  // ---------------------------------------------------------------------------

  /** The minimal two's-complement encoding of a non-negative value below 256. */
  function MinimalUnsigned(v: byte): seq<byte> {
    if v < 0x80 then [v] else [0, v]
  }

  /** Accepts exactly the minimal, non-negative encodings of a value that fits in a
      u8: a sign bit set, a redundant leading zero octet, an empty content or a value
      above 255 is an error. */
  function ToU8(c: seq<byte>): (r: Decoded<byte>)
    ensures r.Ok? ==> c == MinimalUnsigned(r.value)
    ensures forall v: byte {:trigger MinimalUnsigned(v)} :: c == MinimalUnsigned(v) ==> r == Ok(v)
  {
    if |c| == 1 then (if c[0] < 0x80 then Ok(c[0]) else Err(InvalidInteger))
    else if |c| == 2 && c[0] == 0 && c[1] >= 0x80 then Ok(c[1])
    else Err(InvalidInteger)
  }
}
