/** `Pkcs7::take_from`: a ContentInfo whose `[0]` content is a SignedData (RFC 5652
    sections 3 and 5.1), of which only the certificate set is decoded. */
module Pkcs7Decoder {
  import opened Wrappers
  import opened Der
  import opened X509

  datatype Pkcs7 = Pkcs7(contentType: Oid, content: seq<Certificate>)

  /** Where the certificate loop stops: the certificates read, in wire order, and the
      bytes from the first value that is not a certificate on. */
  datatype Run = Run(certificates: seq<Certificate>, rest: seq<byte>)

  /** Certificates are read while they decode. A value that fails to decode ends the
      run without an error; a panic while decoding one is not caught and fails the
      whole decode. */
  function CertificateRun(s: seq<byte>): (r: Decoded<Run>)
    ensures r.Ok? ==> |r.value.rest| <= |s|
    ensures r.Err? ==> r.error == Panicked
    decreases |s|
  {
    match CertificateTakeFrom(s)
    case Err(e) => if e == Panicked then Err(Panicked) else Ok(Run([], s))
    case Ok(first) =>
      var tail :- CertificateRun(first.rest);
      Ok(Run([first.value] + tail.certificates, tail.rest))
  }

  /** `let a = cons.skip_one();`: the first value of the set is stepped over; when it
      is not well-formed the error is dropped and the cursor stays. */
  function SkipFirst(content: seq<byte>): (r: seq<byte>)
    ensures |r| <= |content|
    ensures r == content <==> SkipOne(content).Err?
  {
    match SkipOne(content)
    case Ok(rest) => rest
    case Err(_) => content
  }

  /** A run of certificates prefixed to a later run. */
  function Prepend(certificates: seq<Certificate>, later: Decoded<Run>): Decoded<Run> {
    match later
    case Ok(run) => Ok(Run(certificates + run.certificates, run.rest))
    case Err(e) => Err(e)
  }

  /** The body of the certificate-set closure, as the source writes it: skip the first
      value, then push certificates onto a vector while they decode. */
  method TakeCertificates(content: seq<byte>) returns (r: Decoded<Run>)
    ensures r == CertificateRun(SkipFirst(content))
  {
    var cons := SkipFirst(content);
    ghost var start := cons;
    var certificates: seq<Certificate> := [];
    assert CertificateRun(start).Ok? ==> [] + CertificateRun(start).value.certificates == CertificateRun(start).value.certificates;
    while true
      invariant CertificateRun(start) == Prepend(certificates, CertificateRun(cons))
      decreases |cons|
    {
      var next := CertificateTakeFrom(cons);
      if next.Err? {
        if next.error == Panicked {
          assert CertificateRun(cons) == Err(Panicked);
          return Err(Panicked);
        }
        assert CertificateRun(cons) == Ok(Run([], cons));
        assert certificates + [] == certificates;
        return Ok(Run(certificates, cons));
      }
      ghost var later := CertificateRun(next.value.rest);
      if later.Ok? {
        assert certificates + ([next.value.value] + later.value.certificates)
            == (certificates + [next.value.value]) + later.value.certificates;
      }
      certificates := certificates + [next.value.value];
      cons := next.value.rest;
    }
  }

  /** The `[0]` certificate set: what the loop leaves must be empty. */
  function CertificateSet(content: seq<byte>): (r: Decoded<seq<Certificate>>)
    ensures r.Ok? <==> CertificateRun(SkipFirst(content)).Ok? && CertificateRun(SkipFirst(content)).value.rest == []
    ensures r.Ok? ==> r.value == CertificateRun(SkipFirst(content)).value.certificates
  {
    var run :- CertificateRun(SkipFirst(content));
    if run.rest != [] then Err(TrailingData) else Ok(run.certificates)
  }

  /** The EncapsulatedContentInfo, read as a SEQUENCE holding exactly an OID. The
      source drops the result, so a failure leaves the cursor where it was. */
  function EncapsulatedContentTypeTakeFrom(s: seq<byte>): (r: Decoded<Taken<Oid>>)
    ensures |s| == 0 || s[0] != 0x30 ==> r.Err?
    ensures r.Ok? ==> |r.value.rest| < |s|
  {
    var sq :- TakeSequence(s);
    var oid :- OidTakeFrom(sq.value);
    if oid.rest != [] then Err(TrailingData) else Ok(Taken(oid.value, sq.rest))
  }

  /** `let _ = EncapsulatedContentInfo::take_from(cons)`: the cursor after the
      encapsulated content info when there is one, where it was otherwise. */
  function SkipEncapsulatedContentInfo(s: seq<byte>): (r: seq<byte>)
    ensures |r| <= |s|
    ensures EncapsulatedContentTypeTakeFrom(s).Err? ==> r == s
    ensures EncapsulatedContentTypeTakeFrom(s).Ok? ==> r == EncapsulatedContentTypeTakeFrom(s).value.rest
  {
    var encap := EncapsulatedContentTypeTakeFrom(s);
    if encap.Ok? then encap.value.rest else s
  }

  /** `capture_one().expect(..)`: the next value of any tag, where a missing or
      malformed one panics. */
  function ExpectCaptureOne(s: seq<byte>): (r: Decoded<Taken<seq<byte>>>)
    ensures r.Err? <==> SkipOne(s).Err?
    ensures r.Ok? ==> r.value.value + r.value.rest == s && SkipOne(s) == Ok(r.value.rest)
    ensures r.Err? ==> r.error == Panicked
  {
    if CaptureOne(s).Ok? then CaptureOne(s) else Err(Panicked)
  }

  /** The `[0]` around the certificate set, which must be there. */
  function CertificateSetTakeFrom(s: seq<byte>): (r: Decoded<Taken<seq<Certificate>>>)
    ensures |s| == 0 || s[0] != 0xA0 ==> r.Err?
    ensures r.Ok? ==> |r.value.rest| < |s|
  {
    var certSet :- TakeConstructedIf(s, CTX_0);
    var certificates :- CertificateSet(certSet.value);
    Ok(Taken(certificates, certSet.rest))
  }

  /** The content of the SignedData SEQUENCE: version and digest algorithms are
      captured unchecked (a missing one panics), the encapsulated content info is
      tried, the `[0]` certificate set is required, and the signer infos are captured
      and dropped. */
  function SignedDataContent(content: seq<byte>): (r: Decoded<seq<Certificate>>)
    ensures SkipOne(content).Err? ==> r == Err(Panicked)
    ensures SkipOne(content).Ok? && SkipOne(SkipOne(content).value).Err? ==> r == Err(Panicked)
  {
    var version :- ExpectCaptureOne(content);
    var digestAlgorithms :- ExpectCaptureOne(version.rest);
    var afterEncap := SkipEncapsulatedContentInfo(digestAlgorithms.rest);
    var certSet :- CertificateSetTakeFrom(afterEncap);
    if SkipRest(certSet.rest) != [] then Err(TrailingData) else Ok(certSet.value)
  }

  /** The SignedData SEQUENCE. */
  function SignedDataTakeFrom(s: seq<byte>): (r: Decoded<Taken<seq<Certificate>>>)
    ensures |s| == 0 || s[0] != 0x30 ==> r.Err?
    ensures r.Ok? ==> |r.value.rest| < |s|
  {
    var sq :- TakeSequence(s);
    var certificates :- SignedDataContent(sq.value);
    Ok(Taken(certificates, sq.rest))
  }

  /** The explicit `[0]` around the SignedData, which must hold exactly it. */
  function ExplicitSignedDataTakeFrom(s: seq<byte>): (r: Decoded<Taken<seq<Certificate>>>)
    ensures |s| == 0 || s[0] != 0xA0 ==> r.Err?
    ensures r.Ok? ==> |r.value.rest| < |s|
  {
    var explicit :- TakeConstructedIf(s, CTX_0);
    var signedData :- SignedDataTakeFrom(explicit.value);
    if signedData.rest != [] then Err(TrailingData) else Ok(Taken(signedData.value, explicit.rest))
  }

  /** `Pkcs7::take_from`: a SEQUENCE of exactly a content type OID and a constructed
      `[0]` holding exactly the SignedData. */
  function Pkcs7TakeFrom(s: seq<byte>): (r: Decoded<Taken<Pkcs7>>)
    ensures |s| == 0 || s[0] != 0x30 ==> r.Err?
    ensures r.Ok? ==> |r.value.rest| < |s|
  {
    var sq :- TakeSequence(s);
    var contentType :- OidTakeFrom(sq.value);
    var content :- ExplicitSignedDataTakeFrom(contentType.rest);
    if content.rest != [] then Err(TrailingData)
    else Ok(Taken(Pkcs7(contentType.value, content.value), sq.rest))
  }

  /** `Constructed::decode` in DER mode: the whole input is one PKCS#7 value. */
  function DecodePkcs7(bytes: seq<byte>): (r: Decoded<Pkcs7>)
    ensures r.Ok? <==> Pkcs7TakeFrom(bytes).Ok? && Pkcs7TakeFrom(bytes).value.rest == []
    ensures r.Ok? ==> r.value == Pkcs7TakeFrom(bytes).value.value
  {
    var p :- Pkcs7TakeFrom(bytes);
    if p.rest != [] then Err(TrailingData) else Ok(p.value)
  }
}
