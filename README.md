# pkcs7-parser-rs certificate extractor, modelled in Dafny

`src/main.rs` reads a PKCS#7 / CMS `ContentInfo` (RFC 5652 sections 3 and 5.1) with the
`bcder` cursor. It walks into the `SignedData` and returns the X.509 certificates of its
`[0]` certificate set, as `Pkcs7 { content_type, content }`. Each certificate
(RFC 5280 section 4.1) is decoded into the records of `src/main.rs:20-56`:
- `Certificate`, `TbsCertificate`, `AlgorithmIdentifier`, `Validity` and
  `SubjectPublicKeyInfo`;
- the serial number as lower-case hex text;
- issuer and subject as verbatim octets;
- the two validity times as UTF-8 text;
- the public key with a fixed 9-octet head and 5-octet tail cut off;
- the signature without its first octet.

The project has these parts:

- `wrappers.dfy`: `Option` and `Result`.
- `der.dfy` (module `Der`): a definite-length DER tag-length-value cursor.
  - The cursor is the unread byte sequence. Every operation returns what it took and the
    bytes after it.
  - Error kinds are an `Error` enum.
  - The end-of-contents identifier (`0x00`, or `0x20` with the constructed bit set) is an error inside definite-length content, as in `bcder`.
  - A Rust panic (`expect`, or `drain` out of range) is the error `Panicked`. That error
    is never swallowed.
- `der_encoding.dfy` (module `DerEncoding`): the DER encoder `Tlv` of one value, and
  lemmas on what each cursor operation reads back from it.
- `hex.dfy` and `utf8.dfy`: the `hex::encode` and `String::from_utf8` conversions, each
  with its inverse and round-trip lemmas.
- `rust_vec.dfy` (module `RustVec`): the class `ByteVec`, a `Vec<u8>` with the in-place
  `drain` and `truncate` the decoders use.
- `x509.dfy` (module `X509`): the records and the `take_from` decoders of the certificate.
  The two vector edits are methods on a `ByteVec`, proved equal to the functions that
  specify them.
- `pkcs7.dfy` (module `Pkcs7Decoder`): `Pkcs7::take_from`.
  - The certificate loop (`while let Ok(cert) = …`) is a method with a loop invariant.
  - It is proved equal to the recursive specification `CertificateRun`.
- `x509_encoding.dfy` and `pkcs7_encoding.dfy`: encoders that build the wire form of each
  record from its parts.
  - The parts leave free what the decoder ignores: the tags of primitive fields, the
    algorithm parameters, the name contents, the extensions, the CMS version, the digest
    algorithms and the signer infos.
- `x509_properties.dfy` and `pkcs7_properties.dfy`: two kinds of lemma.
  - Round trips: the decoder of each record reads back exactly the record the encoder's
    parts specify.
  - Rejections: the inputs each decoder refuses, and with which error.

Behaviours of the code that the model keeps as they are:
- The signature is a BIT STRING (RFC 5280 section 4.1.1.3). Its leading unused-bits octet is dropped without any check that it is 0.
- The raw TbsCertificate encoding is not kept.
- The validity times are kept as text, not parsed.
- The signer infos are captured and thrown away.
- The first value of the certificate set is skipped.
- The certificate loop stops silently at the first value that is not a certificate.

## Model

| member | source | states |
|---|---|---|
| X509.SignatureBits | src/main.rs:183-184 | The signature is the content without its first octet: its length is one less, and octet `i` is content octet `i+1`. An empty content panics, and that is the only failure. |
| X509.SignatureBitsInPlace | src/main.rs:183-187 | Copying the content into a vector and calling `drain(0..1)` gives exactly `SignatureBits`, including the panic on an empty content. |
| X509.TrimKey | src/main.rs:413-420 | A key longer than 14 octets keeps octets `[9, n-5)`, so its length is `n-14` and octet `i` is raw octet `i+9`. A key of at most 14 octets is unchanged. |
| X509.TrimKeyInPlace | src/main.rs:410-422 | `drain(0..9)` followed by `truncate(len-5)` on the vector gives exactly `TrimKey`. |
| RustVec.ByteVec.Drain | src/main.rs:184 | `drain(lo..hi)` removes positions `[lo, hi)` when `lo <= hi <= len`. Otherwise it fails (panics) and leaves the vector unchanged. |
| RustVec.ByteVec.Truncate | src/main.rs:416 | `truncate(n)` keeps the first `n` elements. A vector that is not longer than `n` is unchanged. |
| X509.FromUtf8 | src/main.rs:370-372 | Succeeds exactly when the octets are UTF-8, and then the text encodes back to those octets. Otherwise the error is `InvalidUtf8`. |
| Utf8.EncodeDecode | src/main.rs:370 | Whenever `from_utf8` accepts octets, re-encoding the decoded text gives back the same octets. |
| Utf8.DecodeEncode | src/main.rs:370 | The UTF-8 encoding of any text is accepted and decodes to that text. |
| Hex.DecodeEncode | src/main.rs:274 | Hex text decodes back to the octets it was made from, so the serial number loses nothing. |
| Hex.EncodeInjective | src/main.rs:274 | Two different serial numbers never give the same hex text. |
| Der.TakeOptConstructedIf | src/main.rs:265 | It gives `None`, consuming nothing, exactly when the cursor is empty or the next tag is not the one asked for. A present value has the constructed form of that tag. |
| Der.TakeConstructedIf | src/main.rs:80 | An empty cursor, or a next octet that is not the constructed form of the tag, is an error. Content and rest are strictly shorter than the input. |
| Der.TakePrimitiveIf | src/main.rs:266 | Anything but the primitive form of the tag is an error. Content and rest are strictly shorter than the input. |
| Der.TakePrimitive | src/main.rs:272 | An empty cursor, a constructed next value or an end-of-contents identifier is an error. Any other tag is accepted: it is not checked. |
| Der.TakeSequence | src/main.rs:76 | An empty cursor, or a next octet other than `0x30`, is an error. Content and rest are strictly shorter than the input. `DerEncoding.TakeSequenceTlv` reads back the content and rest of any encoded SEQUENCE. |
| Der.SkipOne | src/main.rs:113 | An empty cursor or an end-of-contents identifier is an error, and a step always moves strictly forward. `DerEncoding.SkipOneTlv` shows it steps over exactly one encoded value when that value is well-formed, and fails otherwise. |
| DerEncoding.SkipOneTlv | src/main.rs:113 | On an encoded value followed by more octets, `skip_one` succeeds exactly when the value is well-formed, and then leaves exactly the octets after it. |
| Der.ParseHeader | src/main.rs:76 | The identifier, the constructed bit and the content are read from the front of the input, and an end-of-contents identifier is an error. `DerEncoding.ParseHeaderTlv` shows that every `Tlv` encoding is read back as its identifier, constructed bit, content and rest. |
| DerEncoding.ParseHeaderTlv | src/main.rs:76 | Every encoding with a one-octet identifier other than end-of-contents and a shortest definite length is read back as exactly its tag, constructed bit, content and rest. |
| DerEncoding.ParseLengthOctets | src/main.rs:76 | The shortest definite length octets of any length below 2^32 are read back as that length, with the octets after them as the rest. |
| DerEncoding.LengthOctetsOf | src/main.rs:76 | The converse of `ParseLengthOctets`: every length the DER cursor accepts is below 2^32 and was written in exactly its shortest form, so the length octets are unique. |
| DerEncoding.ParseHeaderIsTlv | src/main.rs:76 | The converse of `ParseHeaderTlv`: every value the cursor reads with a one-octet identifier is exactly `Tlv` of that identifier and its content, followed by the rest. The `Tlv` lemmas therefore cover every input the decoders accept. |
| Der.ToU8 | src/main.rs:267 | Accepts exactly the minimal non-negative INTEGER encodings of a u8: on success the content is the encoding of the result, and every such encoding is accepted. |
| DerEncoding.SkipAllTlv | src/main.rs:288 | `skip_all` (and with it `capture_all`) on an encoded value followed by more octets succeeds exactly when the value is well-formed (primitive, or constructed from well-formed values) and the octets after it are well-formed too. This is what `Der.SkipAll`, `Der.CaptureAll` and `Der.SkipRest` accept. |
| Der.CaptureOne | src/main.rs:84-85 | The captured value followed by the rest is the input, and the rest is strictly shorter. |
| X509.VersionTakeFrom | src/main.rs:265-270 | When no `[0]` comes next or the cursor is empty, the version is `None` and nothing is consumed. A present version came from a constructed `[0]`. |
| X509Properties.VersionRoundTrip | src/main.rs:265-270 | A `[0]` holding the minimal INTEGER of `v` is read as `Some(v)`, and the cursor ends up just after it. |
| X509Properties.VersionThenField | src/main.rs:265-272 | Before any value whose tag is not `[0]`, an encoded version is read back and an absent one consumes nothing. |
| X509Properties.VersionRejectsBadInteger | src/main.rs:266-267 | An INTEGER that does not fit a u8, is negative or is not minimal fails the version. |
| X509Properties.VersionRejectsOtherType | src/main.rs:266 | A `[0]` holding a value that is not an INTEGER fails. |
| X509Properties.VersionRejectsPrimitive | src/main.rs:265 | A primitive `[0]` is an error, not an absent version. |
| X509Properties.SerialNumberRoundTrip | src/main.rs:272-278 | The serial number is the hex of the content. Its tag is not checked: any primitive one-octet tag except end-of-contents is accepted. The hex has length `2n` and decodes back to the content. |
| X509Properties.NameCopy | src/main.rs:283-292 | Issuer and subject are read exactly when the value is a constructed SEQUENCE of well-formed values, and then their content is copied verbatim. Any other tag is an error. The same code is at 298-307. |
| X509.NameTakeFrom | src/main.rs:298-307 | A non-SEQUENCE is an error. The captured octets are a well-formed sequence of values. |
| X509.AlgorithmIdentifierTakeFrom | src/main.rs:341-353 | `parameters` is always `None`, and a non-SEQUENCE is an error. |
| X509.OidTakeFrom | src/main.rs:344 | A value that is not an OBJECT IDENTIFIER is an error, and the OID content and the rest are strictly shorter than the input. `X509Properties.OidSequenceFraming` reads an encoded OID back with its content verbatim. |
| X509Properties.OidSequenceFraming | src/main.rs:342-344 | A SEQUENCE that starts with an encoded OID is opened, and the OID is read back verbatim with whatever follows it as the rest. |
| X509.ValidityTakeFrom | src/main.rs:364-393 | A non-SEQUENCE is an error and the rest is strictly shorter. What is read is stated by `X509Properties.ValidityRoundTrip`, `ValidityRejectsInvalidUtf8` and `ValidityRejectsThirdValue`. |
| X509.SubjectPublicKeyInfoTakeFrom | src/main.rs:404-435 | A non-SEQUENCE is an error and the rest is strictly shorter. What is read is stated by `X509Properties.SubjectPublicKeyInfoRoundTrip`. |
| X509.SerialNumberTakeFrom | src/main.rs:272-278 | An empty cursor, a constructed value or an end-of-contents identifier is an error. What is read is stated by `X509Properties.SerialNumberRoundTrip`. |
| X509.TbsCertificateTakeFrom | src/main.rs:261-323 | A non-SEQUENCE is an error and the rest is strictly shorter. What is read is stated by `X509Properties.TbsCertificateRoundTrip`. |
| X509.CertificateTakeFrom | src/main.rs:172-198 | A non-SEQUENCE is an error and the rest is strictly shorter, which is what ends the certificate loop. What is read is stated by `X509Properties.CertificateRoundTrip` and `CertificateEmptySignaturePanics`. |
| X509Properties.AlgorithmIdentifierRoundTrip | src/main.rs:342-352 | The OID is read back, whatever well-formed parameters follow it are skipped, and `parameters` is `None`. |
| X509Properties.AlgorithmIdentifierRejectsMalformedParameters | src/main.rs:346 | Parameters that are not well-formed stop the discarded `skip_all`, and in this model, where the failed read consumes nothing, the SEQUENCE then fails with trailing data. |
| X509Properties.ValidityRoundTrip | src/main.rs:364-393 | Not-before and not-after are read in wire order, each as any UTF-8 text. Each may carry any primitive one-octet tag except end-of-contents: no tag, format or order is checked. |
| X509Properties.ValidityRejectsInvalidUtf8 | src/main.rs:367-375 | A not-before that is not UTF-8 fails with `InvalidUtf8`. |
| X509Properties.ValidityRejectsThirdValue | src/main.rs:365-392 | A third value inside the Validity is an error. |
| X509Properties.SubjectPublicKeyInfoRoundTrip | src/main.rs:404-435 | The algorithm is read, the key is trimmed as `TrimKey` says, and the well-formed values after the key are skipped. |
| X509Properties.TbsCertificateRoundTrip | src/main.rs:261-323 | The fields are read in order: version, serial, algorithm, issuer, validity, subject and key. All of them come back, and the extensions (anything well-formed after the key) are skipped. |
| X509Properties.CertificateRoundTrip | src/main.rs:172-198 | A certificate comes back field by field, with its signature stripped of the first octet. The cursor ends up just after it. |
| X509Properties.CertificateEmptySignaturePanics | src/main.rs:183-184 | An otherwise valid certificate whose signature content is empty panics. |
| X509Properties.CertificateWellFormed | src/main.rs:113 | An encoded certificate is one well-formed value, so `skip_one` steps over exactly it. |
| Pkcs7Decoder.SkipFirst | src/main.rs:113 | The cursor stays where it was exactly when `skip_one` fails: the error is ignored. Otherwise the cursor moves forward. |
| Pkcs7Decoder.TakeCertificates | src/main.rs:113-123 | The loop that pushes certificates while they decode gives exactly `CertificateRun` applied after the skipped first value. |
| Pkcs7Decoder.CertificateRun | src/main.rs:118-121 | A loop that ends is never an error, except when a panic passes through a decode. The rest is never longer than the input. |
| Pkcs7Properties.CertificateRunAppend | src/main.rs:118-121 | Valid certificates followed by any octets are read in wire order, and the loop goes on with those octets. |
| Pkcs7Decoder.CertificateSet | src/main.rs:111-124 | The content of the `[0]`: the first value is skipped, certificates are read while they decode, and anything left over fails the `[0]` with trailing data. What it reads is stated by `Pkcs7Properties.CertificateSetRoundTrip`, `FirstCertificateDropped` and `CertificateSetRejectsTrailingData`. |
| Pkcs7Properties.CertificateSetRoundTrip | src/main.rs:111-124 | A well-formed value of any tag followed by certificates gives exactly those certificates, in order. |
| Pkcs7Properties.FirstCertificateDropped | src/main.rs:113-121 | A set made only of certificates gives all of them but the first. |
| Pkcs7Properties.CertificateSetRejectsTrailingData | src/main.rs:118-124 | Octets after the certificates that do not decode as a certificate end the loop silently. The `[0]` then fails with trailing data, because a failed read consumes nothing in this model. |
| Pkcs7Properties.CertificateSetPanics | src/main.rs:118-121 | A panic in a later element fails the whole set, however many certificates came before it. |
| Pkcs7Properties.EncapsulatedThenSet | src/main.rs:101-105 | A present encapsulated content info is stepped over exactly, and an absent one consumes nothing. Either way the cursor stays at the `[0]` set. |
| Pkcs7Decoder.ExpectCaptureOne | src/main.rs:84-85 | Panics exactly when `skip_one` fails, that is when no well-formed value comes next. Otherwise it gives the whole next value, identifier and length included, and the cursor after it is where `skip_one` leaves it. |
| Pkcs7Decoder.EncapsulatedContentTypeTakeFrom | src/main.rs:101-105 | A non-SEQUENCE is an error and the rest is strictly shorter. Its use is stated by `Pkcs7Properties.EncapsulatedThenSet` and `SignedDataRejectsEncapsulatedContent`. |
| Pkcs7Decoder.SkipEncapsulatedContentInfo | src/main.rs:101-105 | The ignored `take_sequence`: the cursor never grows, moves past the value when it decodes and stays put when it fails. What that means for the SignedData is stated by `Pkcs7Properties.EncapsulatedThenSet` and `SignedDataRejectsEncapsulatedContent`. |
| Pkcs7Properties.SignedDataRejectsEncapsulatedContent | src/main.rs:101-111 | In this model, an encapsulated content info that carries content after its OID fails to decode, the cursor stays on it, and the SignedData fails because no `[0]` certificate set comes next (see the last lines of "Left out" on how `bcder` differs). |
| Pkcs7Decoder.CertificateSetTakeFrom | src/main.rs:111-124 | Anything but a constructed `[0]` next is an error, and the rest is strictly shorter. What is read is stated by `Pkcs7Properties.CertificateSetTakeFromRoundTrip`. |
| Pkcs7Decoder.SignedDataContent | src/main.rs:84-85 | A SignedData content without a well-formed first value (the CMS version) or second value (the digest algorithms) panics. |
| Pkcs7Decoder.SignedDataTakeFrom | src/main.rs:81-128 | A non-SEQUENCE is an error and the rest is strictly shorter. What is read is stated by `Pkcs7Properties.SignedDataRoundTrip`. |
| Pkcs7Decoder.ExplicitSignedDataTakeFrom | src/main.rs:80-129 | Anything but a constructed `[0]` next is an error, and the rest is strictly shorter. What is read is stated by `Pkcs7Properties.Pkcs7RoundTrip`. |
| Pkcs7Decoder.Pkcs7TakeFrom | src/main.rs:75-136 | A non-SEQUENCE is an error and the rest is strictly shorter. What is read is stated by `Pkcs7Properties.Pkcs7RoundTrip`, `Pkcs7RequiresExplicitContent` and `Pkcs7RequiresContent`. |
| Pkcs7Properties.CertificateSetTakeFromRoundTrip | src/main.rs:111-124 | The `[0]` around the set is read and its certificates come back. The signer infos are what remains. |
| Pkcs7Properties.SignedDataRoundTrip | src/main.rs:81-128 | The certificates come back. The CMS version, digests, encapsulated content info and signer infos are only stepped over. |
| Pkcs7Properties.SignedDataPanicsOnMissingFields | src/main.rs:84-85 | A SignedData without a CMS version or without digest algorithms panics. |
| Pkcs7Properties.SignedDataRequiresCertificateSet | src/main.rs:111-124 | A missing cert-set `[0]` is an error (`MissingValue` at the end), and so is another tag in its place. |
| Pkcs7Properties.Pkcs7RoundTrip | src/main.rs:75-136 | The content type OID (not checked against signed-data) and the certificate list come back. The cursor ends up just after the ContentInfo. |
| Pkcs7Properties.Pkcs7RequiresExplicitContent | src/main.rs:80 | Any value other than a constructed `[0]` after the content type fails the decode. |
| Pkcs7Properties.Pkcs7RequiresContent | src/main.rs:80 | A ContentInfo that holds only its content type fails with `MissingValue`. |
| Pkcs7Decoder.DecodePkcs7 | src/main.rs:480-482 | `Constructed::decode` in DER mode: a ContentInfo that must take up the whole input, followed by nothing. What it returns is stated by `Pkcs7Properties.DecodePkcs7RoundTrip`. |
| Pkcs7Properties.DecodePkcs7RoundTrip | src/main.rs:480-482 | Decoding a whole encoded ContentInfo gives back exactly the record its parts specify. |

## Left out

- File reading, PEM decoding and `main` (`src/main.rs:472-504`) are I/O. The model starts from the decoded DER octets: `load_pkcs7` is modelled only from the point where it decodes them (480-482).
- The `to_string` methods and every `println!` produce text output with no effect on the result.
- These items are commented out in the source:
  - Certificate verification: the `verify` method and `VerifyError`.
  - `Signature::take_from`.
  - `load_certificate`.
- The `Signature` record (`src/main.rs:26-29`) is never built.
- The signer infos are captured at `src/main.rs:126` and dropped, so they are only required to be well-formed values. The same goes for the CMS version and the digest algorithms at 84-85.
- The encapsulated content info's result is computed and never used (`src/main.rs:101-106`). Only its effect on the cursor is modelled.
- `bcder` internals are simplified:
  - BER, indefinite lengths and length fields above four octets are refused.
  - Identifiers of more than one octet are parsed but never match a tag the decoders ask for. An optional read compares only the first identifier octet, so a truncated or over-long multi-octet identifier gives no value there, where `bcder` reads the whole tag and fails; the read that follows then fails on the same octets.
  - OID content is not validated.
  - `bcder`'s error values and positions become the `Error` enum.
  - When a closure fails in `bcder`, the cursor stays where the closure stopped, inside the value. In the model a failed read consumes nothing. Wherever the source goes on after an error, the two can differ:
    - the encapsulated content info (`src/main.rs:101-105`), whose failure is ignored;
    - the first value of the certificate set, skipped at 113;
    - the certificate that ends the loop at 118;
    - the signer infos captured at 126;
    - the `skip_all` calls at 311, 346 and 426, whose results are discarded.
  
    In each of these places the model behaves like a source whose failed read leaves the cursor where it started.
- Panics are modelled as the error `Panicked`, which passes through the certificate loop unchanged. Unwinding is not modelled.
- X509Properties.TbsCertificateRoundTrip: each field is bounded by `FieldLimit` (1 MiB) so that every composed length fits the four-octet length field of the cursor. Longer fields are not covered by the lemma.
- X509Properties.CertificateRoundTrip: covered only for fields below `FieldLimit`, for the same reason.
- Pkcs7Properties.Pkcs7RoundTrip: covered only for certificate sets below `SetLimit` (256 MiB) and other fields below `FieldLimit`, for the same reason.
- Pkcs7Properties.SignedDataRoundTrip: has the same bounds as `Pkcs7RoundTrip`.
- Pkcs7Properties.CertificateSetRoundTrip: has the same bounds as `Pkcs7RoundTrip`.
- Pkcs7Properties.CertificateSetRejectsTrailingData: the source also rejects when the trailing value fails before consuming anything, for example when its first octet is not a SEQUENCE. A value that fails inside a certificate, after part of it was read, leaves `bcder`'s cursor advanced, and the source may then return the earlier certificates where the model fails.
- Pkcs7Properties.SignedDataRejectsEncapsulatedContent: states the model's behaviour. Because of rollback, the model rejects every SignedData whose encapsulated content info carries content. In `bcder` the failed closure leaves the cursor after the OID, inside the encapsulated content info, and decoding goes on from there; the model does not state what the source then returns.
- X509Properties.SerialNumberRoundTrip, X509Properties.NameCopy, X509Properties.AlgorithmIdentifierRoundTrip, X509Properties.ValidityRoundTrip, X509Properties.SubjectPublicKeyInfoRoundTrip, Pkcs7Properties.CertificateSetTakeFromRoundTrip and Pkcs7Properties.DecodePkcs7RoundTrip: each is covered only for fields below `FieldLimit` (or sets below `SetLimit`), so that every composed length fits the four-octet length field of the cursor. The same bound holds for every lemma of modules DerEncoding, X509Properties and Pkcs7Properties that builds an encoding from its parts, whether it is written as `|…| < FieldLimit` or comes through `ValidCertificate`, `AllValid`, `AnyValue` or `ValidSignedData`, for example `CertificateRunAppend`, `FirstCertificateDropped`, `CertificateSetPanics`, `CertificateSetRejectsTrailingData`, `EncapsulatedThenSet`, `CertificateWellFormed`, `CertificateEmptySignaturePanics`, `OidSequenceFraming`, `VersionRejectsBadInteger`, `SignedDataPanicsOnMissingFields`, `SignedDataRequiresCertificateSet` and `Pkcs7RequiresContent`; in DerEncoding the bound is `MaxLength` (2^32).
- X509Properties.ValidityRejectsInvalidUtf8: covers only a bad not-before. A bad not-after fails the same way, but no lemma states it.
