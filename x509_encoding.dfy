/** DER encodings of the certificate fields the decoders read, built from their
    parts, and the record each decoder is expected to produce from them. The parts
    leave free everything the decoders do not check: the tags of the serial number,
    the time values, the key and the signature, the algorithm parameters, the name
    contents and the extensions. */
module X509Encoding {
  import opened Wrappers
  import opened Der
  import opened DerEncoding
  import Hex
  import Utf8
  import opened X509

  /** A bound on each field, small enough that every composed encoding below has a
      length the cursor accepts. */
  const FieldLimit: nat := 0x10_0000

  /** A tag that fits one identifier octet and marks a primitive value. */
  predicate PrimitiveTag(t: byte) {
    ValueTag(t) && !IsConstructed(t)
  }

  /** A `SEQUENCE` of any number of well-formed values. */
  predicate WellFormedContent(content: seq<byte>) {
    |content| < FieldLimit && SkipAll(content).Ok?
  }

  // --- AlgorithmIdentifier ---------------------------------------------------

  /** An OID and whatever well-formed values follow it (the parameters). */
  datatype AlgorithmParts = AlgorithmParts(oid: seq<byte>, parameters: seq<byte>)

  predicate ValidAlgorithm(a: AlgorithmParts) {
    |a.oid| < FieldLimit && WellFormedContent(a.parameters)
  }

  function EncodeAlgorithm(a: AlgorithmParts): (r: seq<byte>)
    requires ValidAlgorithm(a)
    ensures |r| < 3 * FieldLimit
  {
    Tlv(0x30, Tlv(OID, a.oid) + a.parameters)
  }

  function AlgorithmValue(a: AlgorithmParts): AlgorithmIdentifier {
    AlgorithmIdentifier(Oid(a.oid), None)
  }

  // --- Validity --------------------------------------------------------------

  /** Two texts, each under a primitive tag of its own. */
  datatype ValidityParts = ValidityParts(notBeforeTag: byte, notBefore: string, notAfterTag: byte, notAfter: string)

  predicate ValidValidity(v: ValidityParts) {
    && PrimitiveTag(v.notBeforeTag) && |Utf8.Encode(v.notBefore)| < FieldLimit
    && PrimitiveTag(v.notAfterTag) && |Utf8.Encode(v.notAfter)| < FieldLimit
  }

  function EncodeValidity(v: ValidityParts): (r: seq<byte>)
    requires ValidValidity(v)
    ensures |r| < 3 * FieldLimit
  {
    Tlv(0x30, Tlv(v.notBeforeTag, Utf8.Encode(v.notBefore)) + Tlv(v.notAfterTag, Utf8.Encode(v.notAfter)))
  }

  function ValidityValue(v: ValidityParts): Validity {
    Validity(v.notBefore, v.notAfter)
  }

  // --- SubjectPublicKeyInfo --------------------------------------------------

  /** An algorithm, the key under a primitive tag, and well-formed values after it. */
  datatype KeyParts = KeyParts(algorithm: AlgorithmParts, keyTag: byte, key: seq<byte>, trailing: seq<byte>)

  predicate ValidKey(k: KeyParts) {
    ValidAlgorithm(k.algorithm) && PrimitiveTag(k.keyTag) && |k.key| < FieldLimit && WellFormedContent(k.trailing)
  }

  function EncodeKey(k: KeyParts): (r: seq<byte>)
    requires ValidKey(k)
    ensures |r| < 6 * FieldLimit
  {
    Tlv(0x30, EncodeAlgorithm(k.algorithm) + (Tlv(k.keyTag, k.key) + k.trailing))
  }

  function KeyValue(k: KeyParts): SubjectPublicKeyInfo {
    SubjectPublicKeyInfo(AlgorithmValue(k.algorithm), TrimKey(k.key))
  }

  // --- Version ---------------------------------------------------------------

  /** No octets for an absent version; otherwise `[0]` around the minimal INTEGER. */
  function EncodeVersion(version: Option<byte>): (r: seq<byte>)
    ensures |r| <= 14
  {
    match version
    case None => []
    case Some(v) => Tlv(0xA0, Tlv(INTEGER, MinimalUnsigned(v)))
  }

  // --- TbsCertificate --------------------------------------------------------

  datatype TbsParts = TbsParts(
    version: Option<byte>,
    serialTag: byte,
    serial: seq<byte>,
    signature: AlgorithmParts,
    issuer: seq<byte>,
    validity: ValidityParts,
    subject: seq<byte>,
    key: KeyParts,
    extensions: seq<byte>)

  /** The serial number may carry any primitive tag except `[0]`, which would be read
      as the version. */
  predicate ValidTbs(t: TbsParts) {
    && PrimitiveTag(t.serialTag) && t.serialTag != CTX_0 && |t.serial| < FieldLimit
    && ValidAlgorithm(t.signature)
    && WellFormedContent(t.issuer)
    && ValidValidity(t.validity)
    && WellFormedContent(t.subject)
    && ValidKey(t.key)
    && WellFormedContent(t.extensions)
  }

  /** The fields in order; the extensions, if any, come last. */
  function EncodeTbs(t: TbsParts): (r: seq<byte>)
    requires ValidTbs(t)
    ensures |r| < 19 * FieldLimit
  {
    Tlv(0x30, EncodeVersion(t.version) + (Tlv(t.serialTag, t.serial) + (EncodeAlgorithm(t.signature)
      + (Tlv(0x30, t.issuer) + (EncodeValidity(t.validity) + (Tlv(0x30, t.subject)
      + (EncodeKey(t.key) + t.extensions)))))))
  }

  function TbsValue(t: TbsParts): TbsCertificate {
    TbsCertificate(t.version, Hex.Encode(t.serial), AlgorithmValue(t.signature), t.issuer,
                   ValidityValue(t.validity), t.subject, KeyValue(t.key))
  }

  // --- Certificate -----------------------------------------------------------

  datatype CertificateParts = CertificateParts(tbs: TbsParts, signatureAlgorithm: AlgorithmParts, signatureTag: byte, signature: seq<byte>)

  /** A certificate the decoder can read: the signature content must not be empty. */
  predicate ValidCertificate(c: CertificateParts) {
    && ValidTbs(c.tbs) && ValidAlgorithm(c.signatureAlgorithm)
    && PrimitiveTag(c.signatureTag) && 0 < |c.signature| < FieldLimit
  }

  function EncodeCertificate(c: CertificateParts): (r: seq<byte>)
    requires ValidCertificate(c)
    ensures |r| < 24 * FieldLimit
  {
    Tlv(0x30, EncodeTbs(c.tbs) + (EncodeAlgorithm(c.signatureAlgorithm) + Tlv(c.signatureTag, c.signature)))
  }

  function CertificateValue(c: CertificateParts): Certificate
    requires |c.signature| > 0
  {
    Certificate(TbsValue(c.tbs), AlgorithmValue(c.signatureAlgorithm), c.signature[1..])
  }

  predicate AllValid(cs: seq<CertificateParts>) {
    forall i :: 0 <= i < |cs| ==> ValidCertificate(cs[i])
  }

  /** Certificates one after the other. */
  function EncodeCertificates(cs: seq<CertificateParts>): seq<byte>
    requires AllValid(cs)
  {
    if cs == [] then [] else EncodeCertificate(cs[0]) + EncodeCertificates(cs[1..])
  }

  function CertificateValues(cs: seq<CertificateParts>): (r: seq<Certificate>)
    requires AllValid(cs)
    ensures |r| == |cs|
  {
    if cs == [] then [] else [CertificateValue(cs[0])] + CertificateValues(cs[1..])
  }
}
