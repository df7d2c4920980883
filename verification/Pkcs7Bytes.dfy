/** The certs-only message byte by byte: what is written around the certificates, and what must lead it. */
module Pkcs7Bytes {
  import opened Common
  import opened Der
  import opened Oid
  import opened Builder
  import opened Pkcs7

  lemma ContentTypes()
    ensures OidOctets(IdSignedData()) == [0x2a, 0x86, 0x48, 0x86, 0xf7, 0x0d, 0x01, 0x07, 0x02]
    ensures OidOctets(IdData()) == [0x2a, 0x86, 0x48, 0x86, 0xf7, 0x0d, 0x01, 0x07, 0x01]
  {
    hide OidOctets, Map;
    RsaOctets([1, 7, 2]);
    RsaOctets([1, 7, 1]);
    OctetsAsGiven([0x01, 0x07, 0x02], [1, 7, 2]);
    OctetsAsGiven([0x01, 0x07, 0x01], [1, 7, 1]);
    assert [1, 2, 840, 113549] + [1, 7, 2] == IdSignedData();
    assert [1, 2, 840, 113549] + [1, 7, 1] == IdData();
  }

  lemma ShortTlv(tag: byte, content: bytes)
    requires |content| < 128
    ensures Tlv(tag, content) == [tag, |content|] + content
  {
  }

  lemma SignedDataTlv()
    ensures Tlv(0x06, OidOctets(IdSignedData()))
         == [0x06, 0x09, 0x2a, 0x86, 0x48, 0x86, 0xf7, 0x0d, 0x01, 0x07, 0x02]
  {
    hide OidOctets, Tlv;
    ContentTypes();
    ShortTlv(0x06, [0x2a, 0x86, 0x48, 0x86, 0xf7, 0x0d, 0x01, 0x07, 0x02]);
  }

  lemma DataTlv()
    ensures Tlv(0x30, Tlv(0x06, OidOctets(IdData())))
         == [0x30, 0x0b, 0x06, 0x09, 0x2a, 0x86, 0x48, 0x86, 0xf7, 0x0d, 0x01, 0x07, 0x01]
  {
    hide OidOctets, Tlv;
    ContentTypes();
    ShortTlv(0x06, [0x2a, 0x86, 0x48, 0x86, 0xf7, 0x0d, 0x01, 0x07, 0x01]);
    var inner: bytes := [0x06, 0x09, 0x2a, 0x86, 0x48, 0x86, 0xf7, 0x0d, 0x01, 0x07, 0x01];
    assert Tlv(0x06, OidOctets(IdData())) == inner;
    ShortTlv(0x30, inner);
    assert [0x30, 11] + inner
        == [0x30, 0x0b, 0x06, 0x09, 0x2a, 0x86, 0x48, 0x86, 0xf7, 0x0d, 0x01, 0x07, 0x01];
  }

  /** Everything but the certificates is these bytes and the lengths around them. */
  lemma EncodedBytes(field: bytes)
    requires EncodeWire(field).Some?
    ensures EncodeWire(field).value
         == Tlv(0x30, [0x06, 0x09, 0x2a, 0x86, 0x48, 0x86, 0xf7, 0x0d, 0x01, 0x07, 0x02]
                      + Tlv(0xa0, Tlv(0x30,
                          [0x02, 0x01, 0x01]
                          + ([0x31, 0x00]
                             + ([0x30, 0x0b, 0x06, 0x09, 0x2a, 0x86, 0x48, 0x86, 0xf7, 0x0d, 0x01, 0x07, 0x01]
                                + (Tlv(0xa0, field) + [0x31, 0x00]))))))
  {
    SignedDataTlv();
    DataTlv();
    ShortTlv(0x02, [1]);
    ShortTlv(0x31, []);
    hide EncodeWire, OidOctets, Tlv, IdData, IdSignedData;
    EncodeWireIsEnvelope(field);
    assert [0x02, 1] + [1] == [0x02, 0x01, 0x01] && [0x31, 0] + [] == [0x31, 0x00];
    var signed := Tlv(0x30, SignedBytes(Canonical(field)));
    assert signed + [] == signed && Tlv(0xa0, signed) + [] == Tlv(0xa0, signed);
  }

  /** An accepted message has the signed-data identifier, octet for octet, first in its content. */
  lemma AcceptedBegins(der: bytes) returns (rest: bytes)
    requires CertsField(der).Some?
    ensures der == Tlv(0x30, [0x06, 0x09, 0x2a, 0x86, 0x48, 0x86, 0xf7, 0x0d, 0x01, 0x07, 0x02] + rest)
  {
    hide CertsField, OidOctets, Tlv, IdSignedData;
    SignedDataTlv();
    var e := FieldSound(der);
    rest := Tlv(CONTEXT0, Tlv(SEQUENCE, SignedBytes(e)) + e.afterSigned) + e.afterContent;
  }
}
