/**
 The parts of certificates and requests the program looks at.  Parsing and creating them is
 done by a library and stays abstract: functions passed in, with the facts used about them.
 */
module X509 {
  import opened Common
  import opened Der

  // Subject alternative names; addresses and URIs by their printed form.
  datatype Names = Names(dns: seq<string>, ips: seq<string>, emails: seq<string>, uris: seq<string>)

  datatype Certificate = Certificate(raw: bytes, serial: int, commonName: string, names: Names)

  datatype Request = Request(raw: bytes, commonName: string, names: Names)

  type CertParser = bytes -> Option<Certificate>

  type RequestParser = bytes -> Option<Request>

  /** raw is one SEQUENCE element and nothing else. */
  predicate Complete(raw: bytes) {
    var r := ReadTag(raw, 0x30);
    r.Some? && r.value.rest == []
  }

  /** The certificate parser takes one complete element and remembers its bytes. */
  ghost predicate KeepsRaw(parse: CertParser) {
    forall der :: parse(der).Some? ==> parse(der).value.raw == der && Complete(der)
  }
}
