/** What each certificate decoder reads back from the encodings of module
    X509Encoding, and the inputs each one rejects. */
module X509Properties {
  import opened Wrappers
  import opened Der
  import opened DerEncoding
  import Hex
  import Utf8
  import opened X509
  import opened X509Encoding

  // --- AlgorithmIdentifier ---------------------------------------------------

  /** Helper: a SEQUENCE that starts with an OID, as an AlgorithmIdentifier, an
      EncapsulatedContentInfo and a ContentInfo do. */
  lemma OidSequenceFraming(oid: seq<byte>, after: seq<byte>, rest: seq<byte>)
    requires |oid| < FieldLimit && |after| < MaxLength - FieldLimit - 6
    ensures TakeSequence(Tlv(0x30, Tlv(OID, oid) + after) + rest) == Ok(Taken(Tlv(OID, oid) + after, rest))
    ensures OidTakeFrom(Tlv(OID, oid) + after) == Ok(Taken(Oid(oid), after))
  {
    assert |Tlv(OID, oid) + after| < MaxLength;
    TakeSequenceTlv(Tlv(OID, oid) + after, rest);
    TakePrimitiveIfTlv(OID, oid, after, OID);
  }

  /** Helper: the AlgorithmIdentifier read from the results of its steps. */
  lemma AlgorithmFromSteps(s: seq<byte>, content: seq<byte>, rest: seq<byte>, oid: Oid, parameters: seq<byte>)
    requires TakeSequence(s) == Ok(Taken(content, rest))
    requires OidTakeFrom(content) == Ok(Taken(oid, parameters))
    ensures SkipAll(parameters).Ok? ==> AlgorithmIdentifierTakeFrom(s) == Ok(Taken(AlgorithmIdentifier(oid, None), rest))
    ensures SkipAll(parameters).Err? ==> AlgorithmIdentifierTakeFrom(s) == Err(TrailingData)
  {
  }

  /** The OID is read and every well-formed parameter value after it is skipped;
      `parameters` is `None` whatever was encoded. */
  lemma AlgorithmIdentifierRoundTrip(a: AlgorithmParts, rest: seq<byte>)
    requires ValidAlgorithm(a)
    ensures AlgorithmIdentifierTakeFrom(EncodeAlgorithm(a) + rest) == Ok(Taken(AlgorithmValue(a), rest))
  {
    var content := Tlv(OID, a.oid) + a.parameters;
    OidSequenceFraming(a.oid, a.parameters, rest);
    AlgorithmFromSteps(EncodeAlgorithm(a) + rest, content, rest, Oid(a.oid), a.parameters);
  }

  /** Parameters that are not well-formed make the identifier fail. */
  lemma AlgorithmIdentifierRejectsMalformedParameters(a: AlgorithmParts, rest: seq<byte>)
    requires |a.oid| < FieldLimit && |a.parameters| < FieldLimit && SkipAll(a.parameters).Err?
    ensures AlgorithmIdentifierTakeFrom(Tlv(0x30, Tlv(OID, a.oid) + a.parameters) + rest) == Err(TrailingData)
  {
    var content := Tlv(OID, a.oid) + a.parameters;
    var s := Tlv(0x30, content) + rest;
    OidSequenceFraming(a.oid, a.parameters, rest);
    AlgorithmFromSteps(s, content, rest, Oid(a.oid), a.parameters);
  }

  // --- Validity --------------------------------------------------------------

  /** Not-before and not-after come back in this order, whatever their primitive
      tags and whatever text they hold: no format and no order is checked. */
  lemma ValidityRoundTrip(v: ValidityParts, rest: seq<byte>)
    requires ValidValidity(v)
    ensures ValidityTakeFrom(EncodeValidity(v) + rest) == Ok(Taken(ValidityValue(v), rest))
  {
    var nb, na := Utf8.Encode(v.notBefore), Utf8.Encode(v.notAfter);
    TakeSequenceTlv(Tlv(v.notBeforeTag, nb) + Tlv(v.notAfterTag, na), rest);
    TakePrimitiveTlv(v.notBeforeTag, nb, Tlv(v.notAfterTag, na));
    TakePrimitiveTlv(v.notAfterTag, na, []);
    assert Tlv(v.notAfterTag, na) + [] == Tlv(v.notAfterTag, na);
    Utf8.DecodeEncode(v.notBefore);
    Utf8.DecodeEncode(v.notAfter);
  }

  /** A not-before value that is not UTF-8 fails the validity before not-after is read. */
  lemma ValidityRejectsInvalidUtf8(tag: byte, notBefore: seq<byte>, after: seq<byte>, rest: seq<byte>)
    requires PrimitiveTag(tag) && |notBefore| < FieldLimit && |after| < FieldLimit
    requires Utf8.Decode(notBefore).None?
    ensures ValidityTakeFrom(Tlv(0x30, Tlv(tag, notBefore) + after) + rest) == Err(InvalidUtf8)
  {
    TakeSequenceTlv(Tlv(tag, notBefore) + after, rest);
    TakePrimitiveTlv(tag, notBefore, after);
  }

  /** A third value inside the validity is trailing data. */
  lemma ValidityRejectsThirdValue(v: ValidityParts, extra: seq<byte>, rest: seq<byte>)
    requires ValidValidity(v) && 0 < |extra| < FieldLimit
    ensures ValidityTakeFrom(Tlv(0x30, Tlv(v.notBeforeTag, Utf8.Encode(v.notBefore))
                                     + (Tlv(v.notAfterTag, Utf8.Encode(v.notAfter)) + extra)) + rest).Err?
  {
    var nb, na := Utf8.Encode(v.notBefore), Utf8.Encode(v.notAfter);
    var content := Tlv(v.notBeforeTag, nb) + (Tlv(v.notAfterTag, na) + extra);
    TakeSequenceTlv(content, rest);
    TakePrimitiveTlv(v.notBeforeTag, nb, Tlv(v.notAfterTag, na) + extra);
    TakePrimitiveTlv(v.notAfterTag, na, extra);
    Utf8.DecodeEncode(v.notBefore);
    Utf8.DecodeEncode(v.notAfter);
  }

  // --- SubjectPublicKeyInfo --------------------------------------------------

  /** The algorithm is read, the key trimmed and the values after the key skipped. */
  lemma SubjectPublicKeyInfoRoundTrip(k: KeyParts, rest: seq<byte>)
    requires ValidKey(k)
    ensures SubjectPublicKeyInfoTakeFrom(EncodeKey(k) + rest) == Ok(Taken(KeyValue(k), rest))
  {
    var alg := EncodeAlgorithm(k.algorithm);
    var content := alg + (Tlv(k.keyTag, k.key) + k.trailing);
    TakeSequenceTlv(content, rest);
    AlgorithmIdentifierRoundTrip(k.algorithm, Tlv(k.keyTag, k.key) + k.trailing);
    TakePrimitiveTlv(k.keyTag, k.key, k.trailing);
  }

  // --- Version ---------------------------------------------------------------

  /** A `[0]` holding the minimal INTEGER of `v` is version `v`. */
  lemma VersionRoundTrip(v: byte, rest: seq<byte>)
    ensures VersionTakeFrom(EncodeVersion(Some(v)) + rest) == Ok(Taken(Some(v), rest))
  {
    var i := Tlv(INTEGER, MinimalUnsigned(v));
    TakeOptConstructedIfTlv(0xA0, i, rest, CTX_0);
    TakePrimitiveIfTlv(INTEGER, MinimalUnsigned(v), [], INTEGER);
    assert i + [] == i;
  }

  /** Before a value whose tag is not `[0]`, an encoded version is read back and an
      absent one consumes nothing. */
  lemma VersionThenField(version: Option<byte>, next: seq<byte>)
    requires |next| > 0 && TagOctet(next[0]) != CTX_0
    ensures VersionTakeFrom(EncodeVersion(version) + next) == Ok(Taken(version, next))
  {
    match version
    case None =>
      assert EncodeVersion(version) + next == next;
    case Some(v) =>
      VersionRoundTrip(v, next);
  }

  /** An INTEGER that is not a minimal non-negative encoding below 256 fails. */
  lemma VersionRejectsBadInteger(c: seq<byte>, rest: seq<byte>)
    requires |c| < FieldLimit && ToU8(c).Err?
    ensures VersionTakeFrom(Tlv(0xA0, Tlv(INTEGER, c)) + rest).Err?
  {
    var i := Tlv(INTEGER, c);
    TakeOptConstructedIfTlv(0xA0, i, rest, CTX_0);
    TakePrimitiveIfTlv(INTEGER, c, [], INTEGER);
    assert i + [] == i;
  }

  /** A `[0]` holding anything but an INTEGER fails. */
  lemma VersionRejectsOtherType(id: byte, c: seq<byte>, rest: seq<byte>)
    requires ValueTag(id) && id != INTEGER && |c| < FieldLimit
    ensures VersionTakeFrom(Tlv(0xA0, Tlv(id, c)) + rest).Err?
  {
    var i := Tlv(id, c);
    TakeOptConstructedIfTlv(0xA0, i, rest, CTX_0);
    TakePrimitiveIfTlv(id, c, [], INTEGER);
    assert i + [] == i;
  }

  /** A primitive `[0]` is not an absent version: it fails. */
  lemma VersionRejectsPrimitive(c: seq<byte>, rest: seq<byte>)
    requires |c| < FieldLimit
    ensures VersionTakeFrom(Tlv(CTX_0, c) + rest).Err?
  {
    TakeOptConstructedIfTlv(CTX_0, c, rest, CTX_0);
  }

  // --- Serial number ---------------------------------------------------------

  /** The serial number is the hex text of the content, whatever its primitive tag:
      twice as long as the content, and it decodes back to it. */
  lemma SerialNumberRoundTrip(tag: byte, serial: seq<byte>, rest: seq<byte>)
    requires PrimitiveTag(tag) && |serial| < FieldLimit
    ensures SerialNumberTakeFrom(Tlv(tag, serial) + rest) == Ok(Taken(Hex.Encode(serial), rest))
    ensures |Hex.Encode(serial)| == 2 * |serial| && Hex.Decode(Hex.Encode(serial)) == Some(serial)
  {
    TakePrimitiveTlv(tag, serial, rest);
    Hex.DecodeEncode(serial);
  }

  // --- Issuer and subject ----------------------------------------------------

  /** A name is read exactly when it is a constructed SEQUENCE of well-formed values,
      and then its content octets are copied verbatim. */
  lemma NameCopy(id: byte, content: seq<byte>, rest: seq<byte>)
    requires ValueTag(id) && |content| < FieldLimit
    ensures NameTakeFrom(Tlv(id, content) + rest).Ok? <==> id == 0x30 && SkipAll(content).Ok?
    ensures id == 0x30 && SkipAll(content).Ok? ==> NameTakeFrom(Tlv(id, content) + rest) == Ok(Taken(content, rest))
  {
    assert (Tlv(id, content) + rest)[0] == id;
    if id == 0x30 {
      TakeSequenceTlv(content, rest);
    }
  }

  // --- TbsCertificate ---------------------------------------------------------

  /** The TbsCertificate is its seven fields read one after the other inside one
      SEQUENCE, in this order, followed by anything well-formed. */
  lemma TbsCertificateFromFields(
    x: seq<byte>, content: seq<byte>, rest: seq<byte>,
    s1: seq<byte>, s2: seq<byte>, s3: seq<byte>, s4: seq<byte>, s5: seq<byte>, s6: seq<byte>, s7: seq<byte>,
    tbs: TbsCertificate)
    requires TakeSequence(x) == Ok(Taken(content, rest))
    requires VersionTakeFrom(content) == Ok(Taken(tbs.version, s1))
    requires SerialNumberTakeFrom(s1) == Ok(Taken(tbs.serialNumber, s2))
    requires AlgorithmIdentifierTakeFrom(s2) == Ok(Taken(tbs.signatureAlgorithm, s3))
    requires NameTakeFrom(s3) == Ok(Taken(tbs.issuer, s4))
    requires ValidityTakeFrom(s4) == Ok(Taken(tbs.validity, s5))
    requires NameTakeFrom(s5) == Ok(Taken(tbs.subject, s6))
    requires SubjectPublicKeyInfoTakeFrom(s6) == Ok(Taken(tbs.subjectPublicKeyInfo, s7))
    requires SkipAll(s7).Ok?
    ensures TbsCertificateTakeFrom(x) == Ok(Taken(tbs, rest))
  {
  }

  /** Every field comes back; the extensions (and anything else well-formed after the
      key) are skipped. */
  lemma TbsCertificateRoundTrip(t: TbsParts, rest: seq<byte>)
    requires ValidTbs(t)
    ensures TbsCertificateTakeFrom(EncodeTbs(t) + rest) == Ok(Taken(TbsValue(t), rest))
  {
    var s7 := t.extensions;
    var s6 := EncodeKey(t.key) + s7;
    var s5 := Tlv(0x30, t.subject) + s6;
    var s4 := EncodeValidity(t.validity) + s5;
    var s3 := Tlv(0x30, t.issuer) + s4;
    var s2 := EncodeAlgorithm(t.signature) + s3;
    var s1 := Tlv(t.serialTag, t.serial) + s2;
    var content := EncodeVersion(t.version) + s1;
    TakeSequenceTlv(content, rest);
    assert s1[0] == t.serialTag;
    VersionThenField(t.version, s1);
    TakePrimitiveTlv(t.serialTag, t.serial, s2);
    AlgorithmIdentifierRoundTrip(t.signature, s3);
    NameCopy(0x30, t.issuer, s4);
    ValidityRoundTrip(t.validity, s5);
    NameCopy(0x30, t.subject, s6);
    SubjectPublicKeyInfoRoundTrip(t.key, s7);
    TbsCertificateFromFields(EncodeTbs(t) + rest, content, rest, s1, s2, s3, s4, s5, s6, s7, TbsValue(t));
  }

  // --- Certificate -----------------------------------------------------------

  /** A Certificate is a TbsCertificate, an AlgorithmIdentifier and one primitive
      value inside one SEQUENCE; the value loses its first octet, and an empty one
      panics. */
  lemma CertificateFromFields(
    x: seq<byte>, content: seq<byte>, rest: seq<byte>, s1: seq<byte>, s2: seq<byte>,
    tbs: TbsCertificate, algorithm: AlgorithmIdentifier, signature: seq<byte>)
    requires TakeSequence(x) == Ok(Taken(content, rest))
    requires TbsCertificateTakeFrom(content) == Ok(Taken(tbs, s1))
    requires AlgorithmIdentifierTakeFrom(s1) == Ok(Taken(algorithm, s2))
    requires TakePrimitive(s2) == Ok(Taken(signature, []))
    ensures |signature| == 0 ==> CertificateTakeFrom(x) == Err(Panicked)
    ensures |signature| > 0 ==> CertificateTakeFrom(x) == Ok(Taken(Certificate(tbs, algorithm, signature[1..]), rest))
  {
  }

  /** A certificate comes back with its signature value stripped of its first octet. */
  lemma CertificateRoundTrip(c: CertificateParts, rest: seq<byte>)
    requires ValidCertificate(c)
    ensures CertificateTakeFrom(EncodeCertificate(c) + rest) == Ok(Taken(CertificateValue(c), rest))
  {
    var sig := Tlv(c.signatureTag, c.signature);
    var s1 := EncodeAlgorithm(c.signatureAlgorithm) + sig;
    var content := EncodeTbs(c.tbs) + s1;
    TakeSequenceTlv(content, rest);
    TbsCertificateRoundTrip(c.tbs, s1);
    AlgorithmIdentifierRoundTrip(c.signatureAlgorithm, sig);
    TakePrimitiveTlv(c.signatureTag, c.signature, []);
    assert sig + [] == sig;
    CertificateFromFields(EncodeCertificate(c) + rest, content, rest, s1, sig,
                          TbsValue(c.tbs), AlgorithmValue(c.signatureAlgorithm), c.signature);
  }

  /** An empty signature value panics in `drain(0..1)`. */
  lemma CertificateEmptySignaturePanics(t: TbsParts, algorithm: AlgorithmParts, tag: byte, rest: seq<byte>)
    requires ValidTbs(t) && ValidAlgorithm(algorithm) && PrimitiveTag(tag)
    ensures CertificateTakeFrom(Tlv(0x30, EncodeTbs(t) + (EncodeAlgorithm(algorithm) + Tlv(tag, []))) + rest)
         == Err(Panicked)
  {
    var sig := Tlv(tag, []);
    var s1 := EncodeAlgorithm(algorithm) + sig;
    var content := EncodeTbs(t) + s1;
    TakeSequenceTlv(content, rest);
    TbsCertificateRoundTrip(t, s1);
    AlgorithmIdentifierRoundTrip(algorithm, sig);
    TakePrimitiveTlv(tag, [], []);
    assert sig + [] == sig;
    CertificateFromFields(Tlv(0x30, content) + rest, content, rest, s1, sig,
                          TbsValue(t), AlgorithmValue(algorithm), []);
  }

  // --- Well-formedness of the encodings --------------------------------------

  lemma AlgorithmWellFormed(a: AlgorithmParts, rest: seq<byte>)
    requires ValidAlgorithm(a)
    ensures SkipAll(EncodeAlgorithm(a) + rest).Ok? <==> SkipAll(rest).Ok?
  {
    var content := Tlv(OID, a.oid) + a.parameters;
    assert |content| < MaxLength;
    SkipAllTlv(OID, a.oid, a.parameters);
    SkipAllTlv(0x30, content, rest);
  }

  lemma ValidityWellFormed(v: ValidityParts, rest: seq<byte>)
    requires ValidValidity(v)
    ensures SkipAll(EncodeValidity(v) + rest).Ok? <==> SkipAll(rest).Ok?
  {
    var nb, na := Utf8.Encode(v.notBefore), Utf8.Encode(v.notAfter);
    SkipAllTlv(v.notAfterTag, na, []);
    assert Tlv(v.notAfterTag, na) + [] == Tlv(v.notAfterTag, na);
    SkipAllTlv(v.notBeforeTag, nb, Tlv(v.notAfterTag, na));
    SkipAllTlv(0x30, Tlv(v.notBeforeTag, nb) + Tlv(v.notAfterTag, na), rest);
  }

  lemma KeyWellFormed(k: KeyParts, rest: seq<byte>)
    requires ValidKey(k)
    ensures SkipAll(EncodeKey(k) + rest).Ok? <==> SkipAll(rest).Ok?
  {
    var tail := Tlv(k.keyTag, k.key) + k.trailing;
    SkipAllTlv(k.keyTag, k.key, k.trailing);
    AlgorithmWellFormed(k.algorithm, tail);
    SkipAllTlv(0x30, EncodeAlgorithm(k.algorithm) + tail, rest);
  }

  lemma VersionWellFormed(version: Option<byte>, rest: seq<byte>)
    ensures SkipAll(EncodeVersion(version) + rest).Ok? <==> SkipAll(rest).Ok?
  {
    match version
    case None =>
      assert EncodeVersion(version) + rest == rest;
    case Some(v) =>
      var i := Tlv(INTEGER, MinimalUnsigned(v));
      SkipAllTlv(INTEGER, MinimalUnsigned(v), []);
      assert i + [] == i;
      SkipAllTlv(0xA0, i, rest);
  }

  /** The content of an encoded TbsCertificate is a sequence of well-formed values. */
  lemma TbsContentWellFormed(t: TbsParts)
    requires ValidTbs(t)
    ensures SkipAll(EncodeVersion(t.version) + (Tlv(t.serialTag, t.serial) + (EncodeAlgorithm(t.signature)
      + (Tlv(0x30, t.issuer) + (EncodeValidity(t.validity) + (Tlv(0x30, t.subject)
      + (EncodeKey(t.key) + t.extensions))))))).Ok?
  {
    var s6 := EncodeKey(t.key) + t.extensions;
    var s5 := Tlv(0x30, t.subject) + s6;
    var s4 := EncodeValidity(t.validity) + s5;
    var s3 := Tlv(0x30, t.issuer) + s4;
    var s2 := EncodeAlgorithm(t.signature) + s3;
    var s1 := Tlv(t.serialTag, t.serial) + s2;
    KeyWellFormed(t.key, t.extensions);
    SkipAllTlv(0x30, t.subject, s6);
    ValidityWellFormed(t.validity, s5);
    SkipAllTlv(0x30, t.issuer, s4);
    AlgorithmWellFormed(t.signature, s3);
    SkipAllTlv(t.serialTag, t.serial, s2);
    VersionWellFormed(t.version, s1);
  }

  lemma TbsWellFormed(t: TbsParts, rest: seq<byte>)
    requires ValidTbs(t)
    ensures SkipAll(EncodeTbs(t) + rest).Ok? <==> SkipAll(rest).Ok?
  {
    TbsContentWellFormed(t);
    SkipAllTlv(0x30, EncodeVersion(t.version) + (Tlv(t.serialTag, t.serial)
      + (EncodeAlgorithm(t.signature) + (Tlv(0x30, t.issuer) + (EncodeValidity(t.validity)
      + (Tlv(0x30, t.subject) + (EncodeKey(t.key) + t.extensions)))))), rest);
  }

  lemma CertificateContentWellFormed(c: CertificateParts)
    requires ValidCertificate(c)
    ensures SkipAll(EncodeTbs(c.tbs) + (EncodeAlgorithm(c.signatureAlgorithm) + Tlv(c.signatureTag, c.signature))).Ok?
  {
    var sig := Tlv(c.signatureTag, c.signature);
    SkipAllTlv(c.signatureTag, c.signature, []);
    assert sig + [] == sig;
    AlgorithmWellFormed(c.signatureAlgorithm, sig);
    TbsWellFormed(c.tbs, EncodeAlgorithm(c.signatureAlgorithm) + sig);
  }

  /** An encoded certificate is one well-formed value, so `skip_one` steps over it. */
  lemma CertificateWellFormed(c: CertificateParts, rest: seq<byte>)
    requires ValidCertificate(c)
    ensures SkipOne(EncodeCertificate(c) + rest) == Ok(rest)
  {
    var content := EncodeTbs(c.tbs) + (EncodeAlgorithm(c.signatureAlgorithm) + Tlv(c.signatureTag, c.signature));
    CertificateContentWellFormed(c);
    assert |content| < MaxLength;
    SkipOneTlv(0x30, content, rest);
  }
}
