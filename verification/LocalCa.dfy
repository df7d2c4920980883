/** The in-process CA: what it copies from a request into a certificate. */
module LocalCa {
  import opened Common
  import opened Der
  import opened Oid
  import opened X509
  import Serial

  datatype Template = Template(serial: int, commonName: string, names: Names, notBefore: int, notAfter: int, isCa: bool)

  // The library: signature check, key identifier, creation and parsing.
  datatype Library = Library(signed: Request -> bool, keyId: Request -> Option<bytes>,
                             create: (Template, Request) -> Option<bytes>, parse: CertParser)

  datatype Answer = Issued(cert: Certificate) | BadSignature | BackendError

  const DEFAULT_SKEW := 300

  /** A created certificate is parsed with the template's serial and identity. */
  ghost predicate Preserves(lib: Library) {
    forall t: Template, csr: Request, der: bytes :: lib.create(t, csr) == Some(der) && lib.parse(der).Some? ==>
      var cert := lib.parse(der).value;
      cert.raw == der && cert.serial == t.serial && cert.commonName == t.commonName && cert.names == t.names
  }

  predicate Copies(csr: Request, cert: Certificate) {
    cert.commonName == csr.commonName && cert.names == csr.names
  }

  method IssueCertificate(lib: Library, csr: Request, random: bytes, randomFails: bool, skew: int, validity: int,
                          now: int)
    returns (r: Answer)
    requires |random| == Serial.SERIAL_BYTES
    ensures r.BadSignature? <==> !lib.signed(csr)
    ensures r.Issued? <==>
              lib.signed(csr) && !randomFails && lib.keyId(csr).Some?
              && Made(lib, csr, random, skew, validity, now).Some?
    ensures r.Issued? ==> r.cert == Made(lib, csr, random, skew, validity, now).value && IssuedBy(lib, csr, r.cert)
    ensures r.Issued? ==> exists t: Template, der: bytes ::
              && lib.create(t, csr) == Some(der) && lib.parse(der) == Some(r.cert) && !t.isCa
              && t.commonName == csr.commonName && t.names == csr.names
              && t.notBefore == now - (if skew == 0 then 300 else skew) && t.notAfter == now + validity
              && 0 <= t.serial && |IntOctets(t.serial)| <= 20
    ensures r.Issued? && Preserves(lib) ==>
              && Copies(csr, r.cert) && 0 <= r.cert.serial && |IntOctets(r.cert.serial)| <= Serial.SERIAL_BYTES
              && |Serial.SerialHex(r.cert.serial)| == Serial.WIDTH
  {
    hide IntOctets, Serial.SerialHex, FromBigEndian, Pow256;
    if !lib.signed(csr) {
      return BadSignature;
    }
    var serial := Serial.Next(random, randomFails);
    if serial.None? {
      return BackendError;
    }
    var keyId := lib.keyId(csr);
    if keyId.None? {
      return BackendError;
    }
    var backdate := skew;
    if backdate == 0 {
      backdate := DEFAULT_SKEW;
    }
    var template := Template(serial.value, csr.commonName, csr.names, now - backdate, now + validity, false);
    var der := lib.create(template, csr);
    if der.None? {
      return BackendError;
    }
    var cert := lib.parse(der.value);
    if cert.None? {
      return BackendError;
    }
    Serial.DrawnSerialFits(serial.value);
    ghost var t, made := MadeFrom(lib, csr, random, skew, validity, now);
    r := Issued(cert.value);
  }

  /** The certificates this CA may answer a request with. */
  ghost predicate IssuedBy(lib: Library, csr: Request, cert: Certificate) {
    lib.signed(csr) && exists random: bytes, skew: int, validity: int, now: int ::
      |random| == Serial.SERIAL_BYTES && Made(lib, csr, random, skew, validity, now) == Some(cert)
  }

  /** It has the library make no certificate but of the request's own names, and never a CA's. */
  lemma IssuedFromTemplate(lib: Library, csr: Request, cert: Certificate)
    requires IssuedBy(lib, csr, cert)
    ensures lib.signed(csr)
    ensures exists t: Template, der: bytes ::
              && lib.create(t, csr) == Some(der) && lib.parse(der) == Some(cert) && !t.isCa
              && t.commonName == csr.commonName && t.names == csr.names && 0 <= t.serial && |IntOctets(t.serial)| <= 20
  {
    var random: bytes, skew: int, validity: int, now: int :|
      |random| == Serial.SERIAL_BYTES && Made(lib, csr, random, skew, validity, now) == Some(cert);
    var t, der := MadeFrom(lib, csr, random, skew, validity, now);
  }

  lemma MadeFrom(lib: Library, csr: Request, random: bytes, skew: int, validity: int, now: int)
    returns (t: Template, der: bytes)
    requires |random| == Serial.SERIAL_BYTES && Made(lib, csr, random, skew, validity, now).Some?
    ensures lib.create(t, csr) == Some(der) && lib.parse(der) == Made(lib, csr, random, skew, validity, now) && !t.isCa
    ensures t.commonName == csr.commonName && t.names == csr.names
    ensures t.notBefore == now - (if skew == 0 then 300 else skew) && t.notAfter == now + validity
    ensures 0 <= t.serial && |IntOctets(t.serial)| <= 20
  {
    hide FromBigEndian, Serial.TopBit, IntOctets, Pow256, Serial.SerialHex;
    var serial := FromBigEndian(random) - Serial.TopBit(random);
    var start := now - (if skew == 0 then DEFAULT_SKEW else skew);
    Serial.DrawnFits(random);
    t := Template(serial, csr.commonName, csr.names, start, now + validity, false);
    der := lib.create(t, csr).value;
  }

  /** Whatever it answers with has the identity of the request. */
  lemma IssuedCopies(lib: Library, csr: Request, cert: Certificate)
    requires Preserves(lib) && IssuedBy(lib, csr, cert)
    ensures Copies(csr, cert)
  {
  }

  /** What the library makes of the request. */
  function Made(lib: Library, csr: Request, random: bytes, skew: int, validity: int, now: int): Option<Certificate>
    requires |random| == Serial.SERIAL_BYTES
  {
    var serial := FromBigEndian(random) - Serial.TopBit(random);
    var start := now - (if skew == 0 then DEFAULT_SKEW else skew);
    match lib.create(Template(serial, csr.commonName, csr.names, start, now + validity, false), csr)
    case None => None
    case Some(der) => lib.parse(der)
  }
}
