/** Properties of `Pkcs7::take_from`: the certificate loop, the certificate set and
    its skipped first value, and the round trip through the ContentInfo encoding. */
module Pkcs7Properties {
  import opened Wrappers
  import opened Der
  import opened DerEncoding
  import opened X509
  import opened X509Encoding
  import opened X509Properties
  import opened Pkcs7Decoder
  import opened Pkcs7Encoding

  // --- The certificate loop --------------------------------------------------

  /** Helper: one certificate read, then the run after it. */
  lemma CertificateRunStep(x: seq<byte>, c: Certificate, more: seq<byte>)
    requires CertificateTakeFrom(x) == Ok(Taken(c, more))
    ensures CertificateRun(x) == Prepend([c], CertificateRun(more))
  {
  }

  /** Helper: prefixing two runs in turn is prefixing their concatenation. */
  lemma PrependTwice(a: seq<Certificate>, b: seq<Certificate>, later: Decoded<Run>)
    ensures Prepend(a, Prepend(b, later)) == Prepend(a + b, later)
  {
    if later.Ok? {
      assert a + (b + later.value.certificates) == (a + b) + later.value.certificates;
    }
  }

  /** Helper: concatenation of octet strings is associative. */
  lemma ConcatAssociative(a: seq<byte>, b: seq<byte>, c: seq<byte>)
    ensures (a + b) + c == a + (b + c)
  {
  }

  /** Helper: the certificates after the first are valid too. */
  lemma AllValidTail(cs: seq<CertificateParts>)
    requires AllValid(cs) && |cs| > 0
    ensures AllValid(cs[1..]) && ValidCertificate(cs[0])
    ensures EncodeCertificates(cs) == EncodeCertificate(cs[0]) + EncodeCertificates(cs[1..])
    ensures CertificateValues(cs) == [CertificateValue(cs[0])] + CertificateValues(cs[1..])
  {
    forall i | 0 <= i < |cs[1..]| ensures ValidCertificate(cs[1..][i]) {
      assert cs[1..][i] == cs[i + 1];
    }
  }

  /** Helper: an encoded certificate is read, and the run goes on after it. */
  lemma CertificateRunCons(c: CertificateParts, more: seq<byte>)
    requires ValidCertificate(c)
    ensures CertificateRun(EncodeCertificate(c) + more) == Prepend([CertificateValue(c)], CertificateRun(more))
  {
    CertificateRoundTrip(c, more);
    CertificateRunStep(EncodeCertificate(c) + more, CertificateValue(c), more);
  }

  /** Helper: prefixing no certificates changes nothing. */
  lemma PrependNothing(later: Decoded<Run>)
    ensures Prepend([], later) == later
  {
    if later.Ok? {
      assert [] + later.value.certificates == later.value.certificates;
    }
  }

  /** Encoded certificates are read back one by one, in wire order, and the loop then
      goes on with whatever follows them. */
  lemma {:induction false} CertificateRunAppend(cs: seq<CertificateParts>, tail: seq<byte>)
    requires AllValid(cs)
    ensures CertificateRun(EncodeCertificates(cs) + tail) == Prepend(CertificateValues(cs), CertificateRun(tail))
  {
    if cs == [] {
      assert EncodeCertificates(cs) + tail == tail;
      PrependNothing(CertificateRun(tail));
    } else {
      AllValidTail(cs);
      var more := EncodeCertificates(cs[1..]) + tail;
      ConcatAssociative(EncodeCertificate(cs[0]), EncodeCertificates(cs[1..]), tail);
      CertificateRunCons(cs[0], more);
      CertificateRunAppend(cs[1..], tail);
      PrependTwice([CertificateValue(cs[0])], CertificateValues(cs[1..]), CertificateRun(tail));
    }
  }

  /** The loop stops, without an error, at the end of the content. */
  lemma CertificateRunAtEnd()
    ensures CertificateRun([]) == Ok(Run([], []))
  {
    assert TakeOptConstructedIf([], SEQUENCE) == Ok(None);
  }

  // --- The certificate set ---------------------------------------------------

  /** Whatever the skipped first value was, the certificates after it are the set. */
  lemma CertificateSetAfterSkip(content: seq<byte>, cs: seq<CertificateParts>)
    requires AllValid(cs) && SkipOne(content) == Ok(EncodeCertificates(cs))
    ensures CertificateSet(content) == Ok(CertificateValues(cs))
  {
    CertificateRunAppend(cs, []);
    assert EncodeCertificates(cs) + [] == EncodeCertificates(cs);
    CertificateRunAtEnd();
    assert CertificateValues(cs) + [] == CertificateValues(cs);
  }

  /** A well-formed value of any tag, then certificates: the set holds the certificates. */
  lemma CertificateSetRoundTrip(firstTag: byte, first: seq<byte>, cs: seq<CertificateParts>)
    requires AnyValue(firstTag, first) && AllValid(cs)
    ensures CertificateSet(Tlv(firstTag, first) + EncodeCertificates(cs)) == Ok(CertificateValues(cs))
  {
    SkipOneTlv(firstTag, first, EncodeCertificates(cs));
    CertificateSetAfterSkip(Tlv(firstTag, first) + EncodeCertificates(cs), cs);
  }

  /** When the set starts with a certificate, that certificate is the value skipped. */
  lemma FirstCertificateDropped(cs: seq<CertificateParts>)
    requires AllValid(cs) && |cs| > 0
    ensures CertificateSet(EncodeCertificates(cs)) == Ok(CertificateValues(cs[1..]))
  {
    AllValidTail(cs);
    CertificateWellFormed(cs[0], EncodeCertificates(cs[1..]));
    CertificateSetAfterSkip(EncodeCertificates(cs), cs[1..]);
  }

  /** A value after the certificates that is not a certificate is not dropped: the set
      fails. */
  lemma CertificateSetRejectsTrailingData(firstTag: byte, first: seq<byte>, cs: seq<CertificateParts>, garbage: seq<byte>)
    requires AnyValue(firstTag, first) && AllValid(cs)
    requires garbage != [] && CertificateTakeFrom(garbage).Err? && CertificateTakeFrom(garbage).error != Panicked
    ensures CertificateSet(Tlv(firstTag, first) + (EncodeCertificates(cs) + garbage)) == Err(TrailingData)
  {
    SkipOneTlv(firstTag, first, EncodeCertificates(cs) + garbage);
    CertificateRunAppend(cs, garbage);
  }

  /** A certificate whose decoding panics ends the whole set with the panic, however
      many certificates were read before it. */
  lemma CertificateSetPanics(firstTag: byte, first: seq<byte>, cs: seq<CertificateParts>, tail: seq<byte>)
    requires AnyValue(firstTag, first) && AllValid(cs)
    requires CertificateTakeFrom(tail) == Err(Panicked)
    ensures CertificateSet(Tlv(firstTag, first) + (EncodeCertificates(cs) + tail)) == Err(Panicked)
  {
    SkipOneTlv(firstTag, first, EncodeCertificates(cs) + tail);
    CertificateRunAppend(cs, tail);
  }

  // --- SignedData ------------------------------------------------------------

  /** Helper: a present encapsulated content info is stepped over exactly. */
  lemma EncapsulatedPresent(oid: seq<byte>, next: seq<byte>)
    requires |oid| < FieldLimit
    ensures SkipEncapsulatedContentInfo(Tlv(0x30, Tlv(OID, oid)) + next) == next
  {
    var inner := Tlv(OID, oid);
    assert inner + [] == inner;
    OidSequenceFraming(oid, [], next);
  }

  /** The encapsulated content info is stepped over when present; when it is absent the
      cursor stays at the `[0]` certificate set. */
  lemma EncapsulatedThenSet(e: Option<seq<byte>>, next: seq<byte>)
    requires e.Some? ==> |e.value| < FieldLimit
    requires |next| > 0 && next[0] == 0xA0
    ensures SkipEncapsulatedContentInfo(EncodeEncapsulated(e) + next) == next
  {
    if e.None? {
      assert EncodeEncapsulated(e) + next == next;
    } else {
      EncapsulatedPresent(e.value, next);
    }
  }

  /** Helper: the SignedData content read from the results of its steps. */
  lemma SignedDataContentFromSteps(
    content: seq<byte>, s1: seq<byte>, s2: seq<byte>, s3: seq<byte>, signerInfos: seq<byte>,
    certificates: seq<Certificate>)
    requires CaptureOne(content).Ok? && CaptureOne(content).value.rest == s1
    requires CaptureOne(s1).Ok? && CaptureOne(s1).value.rest == s2
    requires SkipEncapsulatedContentInfo(s2) == s3
    requires CertificateSetTakeFrom(s3) == Ok(Taken(certificates, signerInfos))
    requires SkipAll(signerInfos).Ok?
    ensures SignedDataContent(content) == Ok(certificates)
  {
  }

  /** Helper: the `[0]` certificate set read from the results of its steps. */
  lemma CertificateSetFromSteps(s: seq<byte>, setContent: seq<byte>, rest: seq<byte>, certificates: seq<Certificate>)
    requires TakeConstructedIf(s, CTX_0) == Ok(Taken(setContent, rest))
    requires CertificateSet(setContent) == Ok(certificates)
    ensures CertificateSetTakeFrom(s) == Ok(Taken(certificates, rest))
  {
  }

  /** Helper: the `[0]` around the certificate set. */
  lemma CertificateSetFraming(setContent: seq<byte>, rest: seq<byte>)
    requires |setContent| < MaxLength
    ensures TakeConstructedIf(Tlv(0xA0, setContent) + rest, CTX_0) == Ok(Taken(setContent, rest))
  {
    TakeConstructedIfTlv(0xA0, setContent, rest, CTX_0);
  }

  lemma CertificateSetTakeFromRoundTrip(d: SignedDataParts)
    requires ValidSignedData(d)
    ensures CertificateSetTakeFrom(EncodeCertificateSet(d) + d.signerInfos) == Ok(Taken(CertificateValues(d.certificates), d.signerInfos))
  {
    var setContent := Tlv(d.firstTag, d.first) + EncodeCertificates(d.certificates);
    assert |setContent| < MaxLength;
    CertificateSetFraming(setContent, d.signerInfos);
    CertificateSetRoundTrip(d.firstTag, d.first, d.certificates);
    CertificateSetFromSteps(EncodeCertificateSet(d) + d.signerInfos, setContent, d.signerInfos, CertificateValues(d.certificates));
  }

  lemma SignedDataRoundTrip(d: SignedDataParts, rest: seq<byte>)
    requires ValidSignedData(d)
    ensures SignedDataTakeFrom(EncodeSignedData(d) + rest) == Ok(Taken(CertificateValues(d.certificates), rest))
  {
    var s3 := EncodeCertificateSet(d) + d.signerInfos;
    var s2 := EncodeEncapsulated(d.encapsulatedType) + s3;
    var s1 := Tlv(d.digestTag, d.digestAlgorithms) + s2;
    var content := Tlv(d.versionTag, d.version) + s1;
    TakeSequenceTlv(content, rest);
    CaptureOneTlv(d.versionTag, d.version, s1);
    CaptureOneTlv(d.digestTag, d.digestAlgorithms, s2);
    EncapsulatedThenSet(d.encapsulatedType, s3);
    CertificateSetTakeFromRoundTrip(d);
    SignedDataContentFromSteps(content, s1, s2, s3, d.signerInfos, CertificateValues(d.certificates));
  }

  /** A missing CMS version or digest algorithms makes `expect` panic. */
  lemma SignedDataPanicsOnMissingFields(versionTag: byte, version: seq<byte>, rest: seq<byte>)
    requires AnyValue(versionTag, version)
    ensures SignedDataTakeFrom(Tlv(0x30, []) + rest) == Err(Panicked)
    ensures SignedDataTakeFrom(Tlv(0x30, Tlv(versionTag, version)) + rest) == Err(Panicked)
  {
    TakeSequenceTlv([], rest);
    TakeSequenceTlv(Tlv(versionTag, version), rest);
    CaptureOneTlv(versionTag, version, []);
    assert Tlv(versionTag, version) + [] == Tlv(versionTag, version);
  }

  /** The certificate set is required: SignedData fails when the value after the
      encapsulated content info is not a constructed `[0]`, or when there is none. */
  lemma SignedDataRequiresCertificateSet(d: SignedDataParts, id: byte, c: seq<byte>, tail: seq<byte>, rest: seq<byte>)
    requires ValidSignedData(d) && ValueTag(id) && id != 0xA0 && id != 0x30 && |c| < FieldLimit && |tail| < FieldLimit
    ensures SignedDataTakeFrom(Tlv(0x30, Tlv(d.versionTag, d.version) + (Tlv(d.digestTag, d.digestAlgorithms)
      + (EncodeEncapsulated(d.encapsulatedType) + (Tlv(id, c) + tail)))) + rest).Err?
    ensures SignedDataTakeFrom(Tlv(0x30, Tlv(d.versionTag, d.version) + (Tlv(d.digestTag, d.digestAlgorithms)
      + EncodeEncapsulated(d.encapsulatedType))) + rest) == Err(MissingValue)
  {
    var s3 := Tlv(id, c) + tail;
    var s2 := EncodeEncapsulated(d.encapsulatedType) + s3;
    var s1 := Tlv(d.digestTag, d.digestAlgorithms) + s2;
    TakeSequenceTlv(Tlv(d.versionTag, d.version) + s1, rest);
    CaptureOneTlv(d.versionTag, d.version, s1);
    CaptureOneTlv(d.digestTag, d.digestAlgorithms, s2);
    EncapsulatedSkip(d.encapsulatedType, id, c, tail);
    TakeConstructedIfTlv(id, c, tail, CTX_0);

    var e := EncodeEncapsulated(d.encapsulatedType);
    var u1 := Tlv(d.digestTag, d.digestAlgorithms) + e;
    TakeSequenceTlv(Tlv(d.versionTag, d.version) + u1, rest);
    CaptureOneTlv(d.versionTag, d.version, u1);
    CaptureOneTlv(d.digestTag, d.digestAlgorithms, e);
    EncapsulatedAtEnd(d.encapsulatedType);
  }

  /** An encapsulated content info that carries its content after the OID does not
      decode, so the cursor stays on it, and the certificate set is looked for there:
      the SignedData fails. */
  lemma SignedDataRejectsEncapsulatedContent(d: SignedDataParts, oid: seq<byte>, eContent: seq<byte>, rest: seq<byte>)
    requires ValidSignedData(d) && |oid| < FieldLimit && |eContent| < FieldLimit
    ensures SignedDataTakeFrom(Tlv(0x30, Tlv(d.versionTag, d.version) + (Tlv(d.digestTag, d.digestAlgorithms)
      + (Tlv(0x30, Tlv(OID, oid) + Tlv(0xA0, eContent)) + (EncodeCertificateSet(d) + d.signerInfos)))) + rest).Err?
  {
    var s3 := EncodeCertificateSet(d) + d.signerInfos;
    var s2 := Tlv(0x30, Tlv(OID, oid) + Tlv(0xA0, eContent)) + s3;
    var s1 := Tlv(d.digestTag, d.digestAlgorithms) + s2;
    var content := Tlv(d.versionTag, d.version) + s1;
    assert |content| < MaxLength;
    TakeSequenceTlv(content, rest);
    CaptureOneTlv(d.versionTag, d.version, s1);
    CaptureOneTlv(d.digestTag, d.digestAlgorithms, s2);
    EncapsulatedContentStays(oid, eContent, s3);
    SignedDataFailsAtSet(Tlv(0x30, content) + rest, content, rest, s1, s2);
  }

  /** Helper: the SignedData fails when no certificate set is found after the
      encapsulated content info. */
  lemma SignedDataFailsAtSet(x: seq<byte>, content: seq<byte>, rest: seq<byte>, s1: seq<byte>, s2: seq<byte>)
    requires TakeSequence(x) == Ok(Taken(content, rest))
    requires CaptureOne(content).Ok? && CaptureOne(content).value.rest == s1
    requires CaptureOne(s1).Ok? && CaptureOne(s1).value.rest == s2
    requires CertificateSetTakeFrom(SkipEncapsulatedContentInfo(s2)).Err?
    ensures SignedDataTakeFrom(x).Err?
  {
  }

  /** Helper: an encapsulated content info with content after its OID is not stepped
      over, and the next value is still read as a SEQUENCE. */
  lemma EncapsulatedContentStays(oid: seq<byte>, eContent: seq<byte>, next: seq<byte>)
    requires |oid| < FieldLimit && |eContent| < FieldLimit
    ensures var s := Tlv(0x30, Tlv(OID, oid) + Tlv(0xA0, eContent)) + next;
            SkipEncapsulatedContentInfo(s) == s && s[0] == 0x30
  {
    var econtent := Tlv(0xA0, eContent);
    var s := Tlv(0x30, Tlv(OID, oid) + econtent) + next;
    assert s[0] == 0x30;
    OidSequenceFraming(oid, econtent, next);
  }

  /** Helper: with something other than a SEQUENCE after it, the encapsulated content
      info is stepped over exactly. */
  lemma EncapsulatedSkip(e: Option<seq<byte>>, id: byte, c: seq<byte>, tail: seq<byte>)
    requires e.Some? ==> |e.value| < FieldLimit
    requires ValueTag(id) && id != 0x30 && |c| < FieldLimit
    ensures SkipEncapsulatedContentInfo(EncodeEncapsulated(e) + (Tlv(id, c) + tail)) == Tlv(id, c) + tail
  {
    var next := Tlv(id, c) + tail;
    if e.None? {
      assert EncodeEncapsulated(e) + next == next;
    } else {
      EncapsulatedPresent(e.value, next);
    }
  }

  /** Helper: an encapsulated content info at the very end leaves nothing behind. */
  lemma EncapsulatedAtEnd(e: Option<seq<byte>>)
    requires e.Some? ==> |e.value| < FieldLimit
    ensures SkipEncapsulatedContentInfo(EncodeEncapsulated(e)) == []
  {
    if e.Some? {
      var encap := Tlv(0x30, Tlv(OID, e.value));
      assert encap + [] == encap;
      EncapsulatedPresent(e.value, []);
    }
  }

  // --- ContentInfo -----------------------------------------------------------

  /** Helper: the explicit `[0]` read from the results of its steps. */
  lemma ExplicitFromSteps(s: seq<byte>, signedData: seq<byte>, rest: seq<byte>, certificates: seq<Certificate>)
    requires TakeConstructedIf(s, CTX_0) == Ok(Taken(signedData, rest))
    requires SignedDataTakeFrom(signedData) == Ok(Taken(certificates, []))
    ensures ExplicitSignedDataTakeFrom(s) == Ok(Taken(certificates, rest))
  {
  }

  /** Helper: the ContentInfo read from the results of its steps. */
  lemma Pkcs7FromSteps(x: seq<byte>, content: seq<byte>, rest: seq<byte>, contentType: Oid, s1: seq<byte>,
                       certificates: seq<Certificate>)
    requires TakeSequence(x) == Ok(Taken(content, rest))
    requires OidTakeFrom(content) == Ok(Taken(contentType, s1))
    requires ExplicitSignedDataTakeFrom(s1) == Ok(Taken(certificates, []))
    ensures Pkcs7TakeFrom(x) == Ok(Taken(Pkcs7(contentType, certificates), rest))
  {
  }

  /** Helper: the cursor steps of a ContentInfo around any SignedData octets. */
  lemma ExplicitFraming(signedData: seq<byte>)
    requires |signedData| < SetLimit + 8 * FieldLimit
    ensures TakeConstructedIf(Tlv(0xA0, signedData), CTX_0) == Ok(Taken(signedData, []))
  {
    TakeConstructedIfTlv(0xA0, signedData, [], CTX_0);
    assert Tlv(0xA0, signedData) + [] == Tlv(0xA0, signedData);
  }

  lemma Pkcs7RoundTrip(p: Pkcs7Parts, rest: seq<byte>)
    requires ValidPkcs7(p)
    ensures Pkcs7TakeFrom(EncodePkcs7(p) + rest) == Ok(Taken(Pkcs7Value(p), rest))
  {
    var signedData := EncodeSignedData(p.signedData);
    var explicit := Tlv(0xA0, signedData);
    var content := Tlv(OID, p.contentType) + explicit;
    var certificates := CertificateValues(p.signedData.certificates);
    assert signedData + [] == signedData;
    SignedDataRoundTrip(p.signedData, []);
    ExplicitFraming(signedData);
    OidSequenceFraming(p.contentType, explicit, rest);
    ExplicitFromSteps(explicit, signedData, [], certificates);
    Pkcs7FromSteps(EncodePkcs7(p) + rest, content, rest, Oid(p.contentType), explicit, certificates);
  }

  /** `Constructed::decode` reads back exactly the encoded ContentInfo. */
  lemma DecodePkcs7RoundTrip(p: Pkcs7Parts)
    requires ValidPkcs7(p)
    ensures DecodePkcs7(EncodePkcs7(p)) == Ok(Pkcs7Value(p))
  {
    Pkcs7RoundTrip(p, []);
    assert EncodePkcs7(p) + [] == EncodePkcs7(p);
  }

  /** The explicit `[0]` around the SignedData is required: another value in its
      place fails the decode. */
  lemma Pkcs7RequiresExplicitContent(contentType: seq<byte>, id: byte, c: seq<byte>, rest: seq<byte>)
    requires |contentType| < FieldLimit && ValueTag(id) && id != 0xA0 && |c| < FieldLimit
    ensures Pkcs7TakeFrom(Tlv(0x30, Tlv(OID, contentType) + Tlv(id, c)) + rest).Err?
  {
    var other := Tlv(id, c);
    var content := Tlv(OID, contentType) + other;
    OidSequenceFraming(contentType, other, rest);
    ExplicitRejects(id, c);
    Pkcs7FailsAfterContentType(Tlv(0x30, content) + rest, content, rest, Oid(contentType), other);
  }

  /** Helper: a value other than a constructed `[0]` is not the explicit content. */
  lemma ExplicitRejects(id: byte, c: seq<byte>)
    requires ValueTag(id) && id != 0xA0 && |c| < FieldLimit
    ensures ExplicitSignedDataTakeFrom(Tlv(id, c)).Err?
  {
    var other := Tlv(id, c);
    assert other + [] == other;
    TakeConstructedIfTlv(id, c, [], CTX_0);
  }

  /** Helper: the ContentInfo fails when what follows its content type does. */
  lemma Pkcs7FailsAfterContentType(s: seq<byte>, content: seq<byte>, rest: seq<byte>, contentType: Oid, after: seq<byte>)
    requires TakeSequence(s) == Ok(Taken(content, rest))
    requires OidTakeFrom(content) == Ok(Taken(contentType, after))
    requires ExplicitSignedDataTakeFrom(after).Err?
    ensures Pkcs7TakeFrom(s) == Err(ExplicitSignedDataTakeFrom(after).error)
  {
  }

  /** A ContentInfo holding only its content type is missing its content. */
  lemma Pkcs7RequiresContent(contentType: seq<byte>, rest: seq<byte>)
    requires |contentType| < FieldLimit
    ensures Pkcs7TakeFrom(Tlv(0x30, Tlv(OID, contentType)) + rest) == Err(MissingValue)
  {
    var inner := Tlv(OID, contentType);
    assert inner + [] == inner;
    OidSequenceFraming(contentType, [], rest);
  }
}
