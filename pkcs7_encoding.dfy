/** DER encodings of a ContentInfo holding a SignedData, built from their parts, and
    the record `Pkcs7::take_from` is expected to produce from them. The parts leave
    free what the decoder does not look at: the CMS version, the digest algorithms,
    the value the certificate set starts with, and the signer infos. */
module Pkcs7Encoding {
  import opened Wrappers
  import opened Der
  import opened DerEncoding
  import opened X509
  import opened X509Encoding
  import opened Pkcs7Decoder

  /** A bound on the encoded certificates, small enough for every length below. */
  const SetLimit: nat := 0x1000_0000

  datatype SignedDataParts = SignedDataParts(
    versionTag: byte, version: seq<byte>,
    digestTag: byte, digestAlgorithms: seq<byte>,
    encapsulatedType: Option<seq<byte>>,
    firstTag: byte, first: seq<byte>,
    certificates: seq<CertificateParts>,
    signerInfos: seq<byte>)

  /** One well-formed value of any tag. */
  predicate AnyValue(id: byte, content: seq<byte>) {
    ValueTag(id) && |content| < FieldLimit && WellFormedTlv(id, content)
  }

  predicate ValidSignedData(d: SignedDataParts) {
    && AnyValue(d.versionTag, d.version)
    && AnyValue(d.digestTag, d.digestAlgorithms)
    && (d.encapsulatedType.Some? ==> |d.encapsulatedType.value| < FieldLimit)
    && AnyValue(d.firstTag, d.first)
    && AllValid(d.certificates) && |EncodeCertificates(d.certificates)| < SetLimit
    && WellFormedContent(d.signerInfos)
  }

  /** No octets for an absent EncapsulatedContentInfo; otherwise a SEQUENCE holding
      just the content type OID. */
  function EncodeEncapsulated(e: Option<seq<byte>>): (r: seq<byte>)
    requires e.Some? ==> |e.value| < FieldLimit
    ensures |r| < 2 * FieldLimit
  {
    match e
    case None => []
    case Some(oid) => Tlv(0x30, Tlv(OID, oid))
  }

  /** The `[0]` certificate set: the value the decoder skips, then the certificates. */
  function EncodeCertificateSet(d: SignedDataParts): (r: seq<byte>)
    requires ValidSignedData(d)
    ensures |r| < SetLimit + 2 * FieldLimit
  {
    Tlv(0xA0, Tlv(d.firstTag, d.first) + EncodeCertificates(d.certificates))
  }

  function EncodeSignedData(d: SignedDataParts): (r: seq<byte>)
    requires ValidSignedData(d)
    ensures |r| < SetLimit + 8 * FieldLimit
  {
    Tlv(0x30, Tlv(d.versionTag, d.version) + (Tlv(d.digestTag, d.digestAlgorithms)
      + (EncodeEncapsulated(d.encapsulatedType) + (EncodeCertificateSet(d) + d.signerInfos))))
  }

  datatype Pkcs7Parts = Pkcs7Parts(contentType: seq<byte>, signedData: SignedDataParts)

  predicate ValidPkcs7(p: Pkcs7Parts) {
    |p.contentType| < FieldLimit && ValidSignedData(p.signedData)
  }

  /** The ContentInfo: the content type, then `[0]` around the SignedData. */
  function EncodePkcs7(p: Pkcs7Parts): (r: seq<byte>)
    requires ValidPkcs7(p)
  {
    Tlv(0x30, Tlv(OID, p.contentType) + Tlv(0xA0, EncodeSignedData(p.signedData)))
  }

  function Pkcs7Value(p: Pkcs7Parts): Pkcs7
    requires ValidPkcs7(p)
  {
    Pkcs7(Oid(p.contentType), CertificateValues(p.signedData.certificates))
  }
}
