/** Sizes of certs-only messages, and the few at the 32-bit limit that are written but not read back. */
module Pkcs7Limits {
  import opened Common
  import opened Der
  import opened Oid
  import opened Builder
  import opened X509
  import opened Pkcs7

  // From here on a length takes four octets.
  const LARGE := 0x100_0000

  lemma ElemSize(tag: byte, body: Wire)
    requires LowTag(tag)
    ensures Elem(tag, body).Some? <==> body.Some? && |body.value| <= MAX_CONTENT
    ensures Elem(tag, body).Some? ==> |Elem(tag, body).value| <= |body.value| + 6
    ensures Elem(tag, body).Some? && |body.value| < 128 ==> |Elem(tag, body).value| == |body.value| + 2
    ensures Elem(tag, body).Some? && |body.value| >= LARGE ==> |Elem(tag, body).value| == |body.value| + 6
  {
    if body.Some? && |body.value| <= MAX_CONTENT {
      var n := |body.value|;
      LengthOctetsSize(n);
      Pow256Values();
      BigEndianSize(n, 3);
      hide LengthOctets, BigEndian;
    }
  }

  lemma OidSizes()
    ensures OidWire(IdData()).Some? && |OidWire(IdData()).value| == 11
    ensures OidWire(IdSignedData()).Some? && |OidWire(IdSignedData()).value| == 11
  {
    OctetSizes();
    VersionOne();
    hide OidOctets, IdData, IdSignedData, Tlv, Elem;
    ElemSize(OBJECT_IDENTIFIER, Some(OidOctets(IdData())));
    ElemSize(OBJECT_IDENTIFIER, Some(OidOctets(IdSignedData())));
  }

  lemma OctetSizes()
    ensures |OidOctets(IdData())| == 9 && |OidOctets(IdSignedData())| == 9
  {
    BigArcs();
    RestSize(1);
    RestSize(2);
    assert IdData()[2..] == [840, 113549, 1, 7, 1] && IdSignedData()[2..] == [840, 113549, 1, 7, 2];
    hide Base128, SubOctets;
  }

  lemma RestSize(last: int)
    requires 0 <= last < 128
    ensures |SubOctets([840, 113549, 1, 7, last])| == 8
  {
    BigArcs();
    var s := [840, 113549, 1, 7, last];
    assert s[1..] == [113549, 1, 7, last] && s[2..] == [1, 7, last] && s[3..] == [7, last] && s[4..] == [last];
    assert s[1..][1..] == s[2..] && s[2..][1..] == s[3..] && s[3..][1..] == s[4..] && s[4..][1..] == [];
    assert |Base128(last)| == 1 && |Base128(7)| == 1;
    hide Base128;
    assert |SubOctets(s[4..])| == 1;
    assert |SubOctets(s[3..])| == 2;
    assert |SubOctets(s[2..])| == 3;
    assert |SubOctets(s[1..])| == 6;
  }

  lemma BigArcs()
    ensures |Base128(840)| == 2 && |Base128(113549)| == 3 && |Base128(Wrap64(42))| == 1 && |Base128(1)| == 1
  {
    assert Wrap64(42) == 42;
    assert HighGroups(840 / 128) == HighGroups(0) + [128 + 6];
    assert HighGroups(113549 / 128) == HighGroups(6) + [128 + 119] && HighGroups(6) == HighGroups(0) + [128 + 6];
  }

  lemma TailSize(field: bytes)
    ensures TailWire(field).Some? <==> |field| <= MAX_CONTENT
    ensures TailWire(field).Some? ==> |TailWire(field).value| <= |field| + 21
    ensures TailWire(field).Some? && |field| >= LARGE ==> |TailWire(field).value| == |field| + 21
  {
    hide OidWire, Elem, IdData;
    OidSizes();
    VersionOne();
    ElemSize(SEQUENCE, OidWire(IdData()));
    ElemSize(CONTEXT0, Some(field));
    ElemSize(SET, Some([]));
  }

  lemma SignedSize(field: bytes)
    ensures SignedDataWire(field).Some? <==> |field| + 26 <= MAX_CONTENT
    ensures SignedDataWire(field).Some? ==> |SignedDataWire(field).value| <= |field| + 32
    ensures SignedDataWire(field).Some? && |field| >= LARGE ==> |SignedDataWire(field).value| == |field| + 32
  {
    hide TailWire, Elem, IntOctets;
    TailSize(field);
    VersionOne();
    ElemSize(INTEGER, Some([1]));
    ElemSize(SET, Some([]));
    ElemSize(SEQUENCE, BodyWire(field));
  }

  /** When a message is written, and how long it is. */
  lemma EncodedSize(field: bytes)
    ensures EncodeWire(field).Some? <==> |field| <= 0xffff_ffcd
    ensures EncodeWire(field).Some? ==> |EncodeWire(field).value| <= |field| + 55
    ensures EncodeWire(field).Some? && |field| >= LARGE ==> |EncodeWire(field).value| == |field| + 55
  {
    hide SignedDataWire, OidWire, Elem, IdSignedData;
    SignedSize(field);
    OidSizes();
    VersionOne();
    ElemSize(CONTEXT0, SignedDataWire(field));
    ElemSize(SEQUENCE, Cat(OidWire(IdSignedData()), Elem(CONTEXT0, SignedDataWire(field))));
  }

  /** In terms of the certificates' total length: the round trip stops five octets before the writer does. */
  lemma RoundTripBySize(certs: seq<Certificate>, parse: CertParser)
    requires Parsed(certs, parse)
    ensures var field := Flatten(Raws(certs)); var der := EncodeWire(field);
            if |field| <= 0xffff_ffc8 then der.Some? && Decode(der.value, parse) == Some(certs)
            else if |field| <= 0xffff_ffcd then der.Some? && Decode(der.value, parse) == None
            else der == None
  {
    var field := Flatten(Raws(certs));
    hide EncodeWire, Decode, Flatten, Parsed;
    EncodedSize(field);
    if EncodeWire(field).Some? {
      RoundTrip(certs, parse);
    }
  }

  /** Such a certificate list exists as far as the code can tell: one well-formed element of the right length. */
  lemma WrittenButNotRead(cert: Certificate, parse: CertParser)
    requires cert.raw == Tlv(SEQUENCE, seq(0xffff_ffc7, i => 0)) && parse(cert.raw) == Some(cert)
    ensures Complete(cert.raw) && EncodeWire(cert.raw).Some? && Decode(EncodeWire(cert.raw).value, parse) == None
  {
    var body: bytes := seq(0xffff_ffc7, i => 0);
    hide EncodeWire, Decode, Tlv, Elem, ReadTag;
    VersionOne();
    ElemIs(SEQUENCE, Some(body));
    ElemSize(SEQUENCE, Some(body));
    assert Tlv(SEQUENCE, body) + [] == Tlv(SEQUENCE, body);
    ReadTagOf(SEQUENCE, body, []);
    assert Raws([cert]) == [cert.raw] && [cert.raw][1..] == [] && cert.raw + [] == cert.raw;
    assert Flatten(Raws([cert])) == cert.raw;
    RoundTripBySize([cert], parse);
  }
}
