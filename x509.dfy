/** The X.509 records of the decoder (RFC 5280 section 4.1) and the `take_from`
    functions that read them from the cursor of module Der. */
module X509 {
  import opened Wrappers
  import opened Der
  import Hex
  import Utf8
  import RustVec

  /** An object identifier, kept as the content octets of its OBJECT IDENTIFIER value. */
  datatype Oid = Oid(content: seq<byte>)

  datatype AlgorithmIdentifier = AlgorithmIdentifier(algorithm: Oid, parameters: Option<seq<byte>>)

  /** The two time values as text; neither their format nor their order is checked. */
  datatype Validity = Validity(notBefore: string, notAfter: string)

  datatype SubjectPublicKeyInfo = SubjectPublicKeyInfo(algorithm: AlgorithmIdentifier, subjectPublicKey: seq<byte>)

  /** Issuer and subject are the undecoded content octets of their Name SEQUENCE. */
  datatype TbsCertificate = TbsCertificate(
    version: Option<byte>,
    serialNumber: string,
    signatureAlgorithm: AlgorithmIdentifier,
    issuer: seq<byte>,
    validity: Validity,
    subject: seq<byte>,
    subjectPublicKeyInfo: SubjectPublicKeyInfo)

  datatype Certificate = Certificate(
    tbsCertificate: TbsCertificate,
    signatureAlgorithm: AlgorithmIdentifier,
    signatureValue: seq<byte>)

  // ---------------------------------------------------------------------------
  // Post-processing of raw content octets
  // ---------------------------------------------------------------------------

  /** The signature value: the BIT STRING content without its leading unused-bits
      octet, whatever that octet holds. An empty content makes `drain(0..1)` panic. */
  function SignatureBits(content: seq<byte>): (r: Decoded<seq<byte>>)
    ensures r.Ok? <==> |content| > 0
    ensures r.Err? ==> r.error == Panicked
    ensures r.Ok? ==> |r.value| == |content| - 1
    ensures r.Ok? ==> forall i :: 0 <= i < |r.value| ==> r.value[i] == content[i + 1]
  {
    if |content| == 0 then Err(Panicked) else Ok(content[1..])
  }

  /** The key octets: a key longer than 14 octets loses its first 9 and last 5
      octets; a shorter one is kept whole. */
  function TrimKey(raw: seq<byte>): (key: seq<byte>)
    ensures |raw| > 14 ==> |key| == |raw| - 14
    ensures |raw| > 14 ==> forall i :: 0 <= i < |key| ==> key[i] == raw[i + 9]
    ensures |raw| <= 14 ==> key == raw
  {
    if |raw| > 14 then raw[9..|raw| - 5] else raw
  }

  /** The same edit as `SignatureBits`, done as the source does it on a vector. */
  method SignatureBitsInPlace(content: seq<byte>) returns (r: Decoded<seq<byte>>)
    ensures r == SignatureBits(content)
  {
    var signBytes := new RustVec.ByteVec(content);
    var ok := signBytes.Drain(0, 1);
    if !ok {
      return Err(Panicked);
    }
    assert content[..0] + content[1..] == content[1..];
    return Ok(signBytes.elems);
  }

  /** The same edit as `TrimKey`, done as the source does it on a vector. */
  method TrimKeyInPlace(raw: seq<byte>) returns (key: seq<byte>)
    ensures key == TrimKey(raw)
  {
    var keyBytes := new RustVec.ByteVec(raw);
    if |keyBytes.elems| > 14 {
      var ok := keyBytes.Drain(0, 9);
      keyBytes.Truncate(|keyBytes.elems| - 5);
    }
    return keyBytes.elems;
  }

  /** `String::from_utf8`: the text, or an error when the octets are not UTF-8. */
  function FromUtf8(content: seq<byte>): (r: Decoded<string>)
    ensures r.Ok? <==> Utf8.Decode(content).Some?
    ensures r.Ok? ==> Utf8.Encode(r.value) == content
    ensures r.Err? ==> r.error == InvalidUtf8
  {
    match Utf8.Decode(content)
    case None => Err(InvalidUtf8)
    case Some(text) => Utf8.EncodeDecode(content); Ok(text)
  }

  // ---------------------------------------------------------------------------
  // Decoders
  // ---------------------------------------------------------------------------

  /** `Oid::take_from`: a primitive OBJECT IDENTIFIER value. */
  function OidTakeFrom(s: seq<byte>): (r: Decoded<Taken<Oid>>)
    ensures |s| == 0 || s[0] != OID ==> r.Err?
    ensures r.Ok? ==> |r.value.value.content| + |r.value.rest| < |s|
  {
    var v :- TakePrimitiveIf(s, OID);
    Ok(Taken(Oid(v.value), v.rest))
  }

  /** `AlgorithmIdentifier::take_from`: a SEQUENCE holding an OID and then anything
      well-formed, which is skipped; `parameters` is always `None`. */
  function AlgorithmIdentifierTakeFrom(s: seq<byte>): (r: Decoded<Taken<AlgorithmIdentifier>>)
    ensures |s| == 0 || s[0] != 0x30 ==> r.Err?
    ensures r.Ok? ==> r.value.value.parameters == None && |r.value.rest| < |s|
  {
    var sq :- TakeSequence(s);
    var oid :- OidTakeFrom(sq.value);
    if SkipRest(oid.rest) != [] then Err(TrailingData)
    else Ok(Taken(AlgorithmIdentifier(oid.value, None), sq.rest))
  }

  /** `Validity::take_from`: a SEQUENCE of exactly two primitive values of any tag,
      not-before then not-after, each of which must be UTF-8. */
  function ValidityTakeFrom(s: seq<byte>): (r: Decoded<Taken<Validity>>)
    ensures |s| == 0 || s[0] != 0x30 ==> r.Err?
    ensures r.Ok? ==> |r.value.rest| < |s|
  {
    var sq :- TakeSequence(s);
    var nb :- TakePrimitive(sq.value);
    var notBefore :- FromUtf8(nb.value);
    var na :- TakePrimitive(nb.rest);
    var notAfter :- FromUtf8(na.value);
    if na.rest != [] then Err(TrailingData)
    else Ok(Taken(Validity(notBefore, notAfter), sq.rest))
  }

  /** `SubjectPublicKeyInfo::take_from`: a SEQUENCE holding an AlgorithmIdentifier and
      a primitive value of any tag whose octets are trimmed; what follows is skipped. */
  function SubjectPublicKeyInfoTakeFrom(s: seq<byte>): (r: Decoded<Taken<SubjectPublicKeyInfo>>)
    ensures |s| == 0 || s[0] != 0x30 ==> r.Err?
    ensures r.Ok? ==> |r.value.rest| < |s|
  {
    var sq :- TakeSequence(s);
    var alg :- AlgorithmIdentifierTakeFrom(sq.value);
    var key :- TakePrimitive(alg.rest);
    if SkipRest(key.rest) != [] then Err(TrailingData)
    else Ok(Taken(SubjectPublicKeyInfo(alg.value, TrimKey(key.value)), sq.rest))
  }

  /** The optional `[0]` version: absent, consuming nothing, when the next value does
      not carry tag `[0]`; otherwise a constructed `[0]` holding only an INTEGER that
      fits a u8. */
  function VersionTakeFrom(s: seq<byte>): (r: Decoded<Taken<Option<byte>>>)
    ensures |s| == 0 || TagOctet(s[0]) != CTX_0 ==> r == Ok(Taken(None, s))
    ensures r.Ok? && r.value.value.None? ==> r.value.rest == s
    ensures r.Ok? && r.value.value.Some? ==> s[0] == 0xA0 && |r.value.rest| < |s|
  {
    var o :- TakeOptConstructedIf(s, CTX_0);
    match o
    case None => Ok(Taken(None, s))
    case Some(inner) =>
      var i :- TakePrimitiveIf(inner.value, INTEGER);
      var v :- ToU8(i.value);
      if i.rest != [] then Err(TrailingData) else Ok(Taken(Some(v), inner.rest))
  }

  /** The serial number: a primitive value of any tag, as lower-case hex text. */
  function SerialNumberTakeFrom(s: seq<byte>): (r: Decoded<Taken<string>>)
    ensures |s| == 0 || IsConstructed(s[0]) || EndOfContentsTag(s[0]) ==> r.Err?
    ensures r.Ok? ==> |r.value.rest| < |s|
  {
    var v :- TakePrimitive(s);
    Ok(Taken(Hex.Encode(v.value), v.rest))
  }

  /** Issuer or subject: a constructed SEQUENCE whose well-formed content is captured
      verbatim. */
  function NameTakeFrom(s: seq<byte>): (r: Decoded<Taken<seq<byte>>>)
    ensures |s| == 0 || s[0] != 0x30 ==> r.Err?
    ensures r.Ok? ==> |r.value.value| + |r.value.rest| < |s|
    ensures r.Ok? ==> SkipAll(r.value.value).Ok?
  {
    var sq :- TakeSequence(s);
    var bytes :- CaptureAll(sq.value);
    Ok(Taken(bytes, sq.rest))
  }

  /** `TbsCertificate::take_from`: version, serial number, signature algorithm,
      issuer, validity, subject and public key in this order; anything after the key
      (unique identifiers, extensions) is skipped. */
  function TbsCertificateTakeFrom(s: seq<byte>): (r: Decoded<Taken<TbsCertificate>>)
    ensures |s| == 0 || s[0] != 0x30 ==> r.Err?
    ensures r.Ok? ==> |r.value.rest| < |s|
  {
    var sq :- TakeSequence(s);
    var version :- VersionTakeFrom(sq.value);
    var serial :- SerialNumberTakeFrom(version.rest);
    var alg :- AlgorithmIdentifierTakeFrom(serial.rest);
    var issuer :- NameTakeFrom(alg.rest);
    var validity :- ValidityTakeFrom(issuer.rest);
    var subject :- NameTakeFrom(validity.rest);
    var spki :- SubjectPublicKeyInfoTakeFrom(subject.rest);
    if SkipRest(spki.rest) != [] then Err(TrailingData)
    else
      Ok(Taken(TbsCertificate(version.value, serial.value, alg.value, issuer.value,
                              validity.value, subject.value, spki.value), sq.rest))
  }

  /** `Certificate::take_from`: a SEQUENCE of exactly a TbsCertificate, an
      AlgorithmIdentifier and a primitive signature value of any tag. */
  function CertificateTakeFrom(s: seq<byte>): (r: Decoded<Taken<Certificate>>)
    ensures |s| == 0 || s[0] != 0x30 ==> r.Err?
    ensures r.Ok? ==> |r.value.rest| < |s|
  {
    var sq :- TakeSequence(s);
    var tbs :- TbsCertificateTakeFrom(sq.value);
    var alg :- AlgorithmIdentifierTakeFrom(tbs.rest);
    var sig :- TakePrimitive(alg.rest);
    var value :- SignatureBits(sig.value);
    if sig.rest != [] then Err(TrailingData)
    else Ok(Taken(Certificate(tbs.value, alg.value, value), sq.rest))
  }
}
