/**
 The certs-only SignedData of sections 7 and 9.1 of RFC 2315: writer, reader, the exact
 language the reader accepts, and the exact inputs on which one undoes the other.
 */
module Pkcs7 {
  import opened Common
  import opened Der
  import opened Oid
  import opened Builder
  import opened X509

  function IdData(): Arcs {
    [1, 2, 840, 113549, 1, 7, 1]
  }

  function IdSignedData(): Arcs {
    [1, 2, 840, 113549, 1, 7, 2]
  }

  // -- Writing -------------------------------------------------------------------

  function Raws(certs: seq<Certificate>): seq<bytes> {
    seq(|certs|, i requires 0 <= i < |certs| => certs[i].raw)
  }

  lemma {:induction false} FlattenConcat(a: seq<bytes>, b: seq<bytes>)
    ensures Flatten(a + b) == Flatten(a) + Flatten(b)
  {
    if a == [] {
      assert a + b == b;
    } else {
      FlattenConcat(a[1..], b);
      assert (a + b)[0] == a[0] && (a + b)[1..] == a[1..] + b;
      ConcatAssoc(a[0], Flatten(a[1..]), Flatten(b));
    }
  }

  lemma FlattenSnoc(a: seq<bytes>, raw: bytes)
    ensures Flatten(a + [raw]) == Flatten(a) + raw
  {
    FlattenConcat(a, [raw]);
    assert [raw][1..] == [] && raw + Flatten([]) == raw;
  }

  /** From the inner content info on. */
  function TailWire(field: bytes): Wire {
    Cat(Elem(SEQUENCE, OidWire(IdData())), Cat(Elem(CONTEXT0, Some(field)), Elem(SET, Some([]))))
  }

  function BodyWire(field: bytes): Wire {
    Cat(IntWire(1), Cat(Elem(SET, Some([])), TailWire(field)))
  }

  function SignedDataWire(field: bytes): Wire {
    Elem(SEQUENCE, BodyWire(field))
  }

  function EncodeWire(field: bytes): Wire {
    Elem(SEQUENCE, Cat(OidWire(IdSignedData()), Elem(CONTEXT0, SignedDataWire(field))))
  }

  /** A nil certificate is None. */
  method EncodeCertsOnly(certs: seq<Option<Certificate>>) returns (r: Option<bytes>)
    ensures (exists i :: 0 <= i < |certs| && (certs[i].None? || certs[i].value.raw == [])) ==> r == None
    ensures (forall i :: 0 <= i < |certs| ==> certs[i].Some? && certs[i].value.raw != []) ==>
              var raws := seq(|certs|, i requires 0 <= i < |certs| && certs[i].Some? => certs[i].value.raw);
              r == EncodeWire(Flatten(raws))
  {
    for i := 0 to |certs|
      invariant forall j :: 0 <= j < i ==> certs[j].Some? && certs[j].value.raw != []
    {
      if certs[i].None? || certs[i].value.raw == [] {
        return None;
      }
    }
    ghost var raws := seq(|certs|, i requires 0 <= i < |certs| && certs[i].Some? => certs[i].value.raw);
    var b := new Builder();
    var contentInfo := b.Open(SEQUENCE);
    b.AddObjectIdentifier(IdSignedData());
    ghost var beforeContent := b.Out();
    var content := b.Open(CONTEXT0);
    ghost var inner := SignedDataWire(Flatten(raws));
    AddSignedData(b, certs, raws);
    b.Close(content, beforeContent, CONTEXT0, inner);
    CatAssoc(Opened(Some([]), SEQUENCE), OidWire(IdSignedData()), Elem(CONTEXT0, inner));
    b.Close(contentInfo, Some([]), SEQUENCE, Cat(OidWire(IdSignedData()), Elem(CONTEXT0, inner)));
    CatEmpty(EncodeWire(Flatten(raws)));
    r := b.Bytes();
  }

  method AddSignedData(b: Builder, certs: seq<Option<Certificate>>, ghost raws: seq<bytes>)
    requires |raws| == |certs|
    requires forall i :: 0 <= i < |certs| ==> certs[i].Some? && raws[i] == certs[i].value.raw
    modifies b
    ensures b.Out() == Cat(old(b.Out()), SignedDataWire(Flatten(raws)))
  {
    ghost var before := b.Out();
    var signedData := b.Open(SEQUENCE);
    ghost var start := b.Out();
    b.AddInt64(1);
    b.AddPrimitive(SET, []);
    ghost var p2 := Cat(IntWire(1), Elem(SET, Some([])));
    CatAssoc(start, IntWire(1), Elem(SET, Some([])));
    ghost var beforeInfo := b.Out();
    var info := b.Open(SEQUENCE);
    b.AddObjectIdentifier(IdData());
    b.Close(info, beforeInfo, SEQUENCE, OidWire(IdData()));
    ghost var e3 := Elem(SEQUENCE, OidWire(IdData()));
    CatAssoc(start, p2, e3);
    ghost var beforeCerts := b.Out();
    var field := b.Open(CONTEXT0);
    AddRaws(b, certs, raws);
    b.Close(field, beforeCerts, CONTEXT0, Some(Flatten(raws)));
    ghost var e4 := Elem(CONTEXT0, Some(Flatten(raws)));
    CatAssoc(start, Cat(p2, e3), e4);
    b.AddPrimitive(SET, []);
    ghost var e5 := Elem(SET, Some([]));
    CatAssoc(start, Cat(Cat(p2, e3), e4), e5);
    CatAssoc(Cat(p2, e3), e4, e5);
    CatAssoc(p2, e3, Cat(e4, e5));
    CatAssoc(IntWire(1), Elem(SET, Some([])), Cat(e3, Cat(e4, e5)));
    b.Close(signedData, before, SEQUENCE, BodyWire(Flatten(raws)));
  }

  method AddRaws(b: Builder, certs: seq<Option<Certificate>>, ghost raws: seq<bytes>)
    requires |raws| == |certs|
    requires forall i :: 0 <= i < |certs| ==> certs[i].Some? && raws[i] == certs[i].value.raw
    modifies b
    ensures b.Out() == Cat(old(b.Out()), Some(Flatten(raws)))
  {
    ghost var start := b.Out();
    CatEmpty(start);
    for i := 0 to |certs|
      invariant b.Out() == Cat(start, Some(Flatten(raws[..i])))
    {
      b.AddBytes(certs[i].value.raw);
      CatAssoc(start, Some(Flatten(raws[..i])), Some(raws[i]));
      FlattenSnoc(raws[..i], raws[i]);
      assert raws[..i + 1] == raws[..i] + [raws[i]];
    }
    assert raws[..|certs|] == raws;
  }

  // -- Reading -------------------------------------------------------------------

  /** The content of the certificates field, if everything around it is in place. */
  function CertsField(der: bytes): Option<bytes> {
    match ReadTag(der, SEQUENCE)
    case None => None
    case Some(info) => if info.rest != [] then None else InfoField(info.content, IdSignedData())
  }

  function InfoField(s: bytes, contentType: Arcs): Option<bytes> {
    match ReadTag(s, OBJECT_IDENTIFIER)
    case None => None
    case Some(oid) =>
      if DecodeOid(oid.content) != Some(contentType) then None
      else
        match ReadTag(oid.rest, CONTEXT0)
        case None => None
        case Some(explicit) => SignedDataField(explicit.content)
  }

  function SignedDataField(s: bytes): Option<bytes> {
    match ReadTag(s, SEQUENCE)
    case None => None
    case Some(signed) =>
      match ReadTag(signed.content, INTEGER)
      case None => None
      case Some(version) =>
        if ReadInt64(version.content) == None then None
        else
          match ReadTag(version.rest, SET)
          case None => None
          case Some(digests) =>
            match ReadTag(digests.rest, SEQUENCE)
            case None => None
            case Some(encap) =>
              match ReadTag(encap.rest, CONTEXT0)
              case None => None
              case Some(field) => Some(field.content)
  }

  lemma ReadAnyShrinks(s: bytes)
    requires ReadAny(s).Some?
    ensures |ReadAny(s).value.rest| + 2 <= |s|
  {
  }

  function Prepend(certs: seq<Certificate>, more: Option<seq<Certificate>>): Option<seq<Certificate>> {
    match more case Some(rest) => Some(certs + rest) case None => None
  }

  lemma PrependNone(more: Option<seq<Certificate>>)
    ensures Prepend([], more) == more
  {
    if more.Some? {
      assert [] + more.value == more.value;
    }
  }

  /** Cuts the field into certificate elements and parses each. */
  function Certs(field: bytes, parse: CertParser): Option<seq<Certificate>>
    decreases |field|
  {
    if field == [] then Some([])
    else
      match ReadTag(field, SEQUENCE)
      case None => None
      case Some(e) =>
        ReadAnyShrinks(field);
        match parse(field[..|field| - |e.rest|])
        case None => None
        case Some(cert) =>
          Prepend([cert], Certs(e.rest, parse))
  }

  function Decode(der: bytes, parse: CertParser): Option<seq<Certificate>> {
    match CertsField(der) case Some(field) => Certs(field, parse) case None => None
  }

  /** Each local holds what has been read out of, or is left of, the enclosing element. */
  method DecodeCertsOnly(der: bytes, parse: CertParser) returns (r: Option<seq<Certificate>>)
    ensures r == Decode(der, parse)
  {
    var contentInfo := ReadTag(der, SEQUENCE);
    if contentInfo.None? || contentInfo.value.rest != [] {
      return None;
    }
    var contentType := ReadTag(contentInfo.value.content, OBJECT_IDENTIFIER);
    if contentType.None? || DecodeOid(contentType.value.content) != Some(IdSignedData()) {
      return None;
    }
    var explicitContent := ReadTag(contentType.value.rest, CONTEXT0);
    if explicitContent.None? {
      return None;
    }
    var field := ReadSignedData(explicitContent.value.content);
    if field.None? {
      return None;
    }
    r := ReadCerts(field.value, parse);
  }

  method ReadSignedData(explicitContent: bytes) returns (field: Option<bytes>)
    ensures field == SignedDataField(explicitContent)
  {
    var signed := ReadTag(explicitContent, SEQUENCE);
    if signed.None? {
      return None;
    }
    var version := ReadTag(signed.value.content, INTEGER);
    if version.None? || ReadInt64(version.value.content).None? {
      return None;
    }
    var digests := ReadTag(version.value.rest, SET);
    if digests.None? {
      return None;
    }
    var encap := ReadTag(digests.value.rest, SEQUENCE);
    if encap.None? {
      return None;
    }
    // an optional element is present when the next octet is its tag; here it must be
    var rest := encap.value.rest;
    if rest == [] || rest[0] != CONTEXT0 {
      return None;
    }
    var certificates := ReadTag(rest, CONTEXT0);
    field := if certificates.None? then None else Some(certificates.value.content);
  }

  /** The first element of a field, and the rest. */
  lemma CertsUnfold(field: bytes, parse: CertParser)
    requires field != []
    ensures match ReadTag(field, SEQUENCE)
            case None => Certs(field, parse) == None
            case Some(e) =>
              && |e.rest| < |field|
              && var cert := parse(field[..|field| - |e.rest|]);
                 Certs(field, parse) == if cert.None? then None else Prepend([cert.value], Certs(e.rest, parse))
  {
    if ReadTag(field, SEQUENCE).Some? {
      ReadAnyShrinks(field);
    }
    hide ReadTag, Prepend;
  }

  lemma PrependMore(certs: seq<Certificate>, cert: Certificate, more: Option<seq<Certificate>>)
    ensures Prepend(certs, Prepend([cert], more)) == Prepend(certs + [cert], more)
  {
    if more.Some? {
      assert certs + ([cert] + more.value) == certs + [cert] + more.value;
    }
  }

  method ReadCerts(field: bytes, parse: CertParser) returns (r: Option<seq<Certificate>>)
    ensures r == Certs(field, parse)
  {
    NoCerts(parse);
    hide ReadTag, Certs;
    var certificates, certs := field, [];
    PrependNone(Certs(field, parse));
    while certificates != []
      invariant Prepend(certs, Certs(certificates, parse)) == Certs(field, parse)
      decreases |certificates|
    {
      CertsUnfold(certificates, parse);
      var element := ReadTag(certificates, SEQUENCE);
      if element.None? {
        return None;
      }
      var cert := parse(certificates[..|certificates| - |element.value.rest|]);
      if cert.None? {
        return None;
      }
      PrependMore(certs, cert.value, Certs(element.value.rest, parse));
      certs := certs + [cert.value];
      certificates := element.value.rest;
    }
    r := Some(certs);
    assert certs + [] == certs;
  }

  lemma NoCerts(parse: CertParser)
    ensures Certs([], parse) == Some([])
  {
  }

  lemma IdSignedDataFaithful()
    ensures |IdSignedData()| >= 2 && MarshalAccepts(IdSignedData()) && Faithful(IdSignedData())
  {
  }

  // -- The accepted language -------------------------------------------------------

  // Everything the reader passes over is arbitrary: what follows a nested element, the version,
  // the content of the digest set and of the inner content info.
  datatype Envelope = Envelope(version: bytes, digests: bytes, encap: bytes, field: bytes,
                               afterField: bytes, afterSigned: bytes, afterContent: bytes)

  function SignedBytes(e: Envelope): bytes {
    Tlv(INTEGER, e.version) + (Tlv(SET, e.digests) + (Tlv(SEQUENCE, e.encap) + (Tlv(CONTEXT0, e.field) + e.afterField)))
  }

  function InfoBytes(e: Envelope): bytes {
    Tlv(OBJECT_IDENTIFIER, OidOctets(IdSignedData()))
    + (Tlv(CONTEXT0, Tlv(SEQUENCE, SignedBytes(e)) + e.afterSigned) + e.afterContent)
  }

  function EnvelopeBytes(e: Envelope): bytes {
    Tlv(SEQUENCE, InfoBytes(e))
  }

  predicate Legal(e: Envelope) {
    ReadInt64(e.version).Some? && |EnvelopeBytes(e)| < READ_LIMIT
  }

  /** Each inner element is shorter than the whole. */
  lemma EnvelopeNests(e: Envelope)
    requires Legal(e)
    ensures ReadInt64(e.version).Some?
    ensures |Tlv(SEQUENCE, SignedBytes(e))| < READ_LIMIT && |Tlv(INTEGER, e.version)| < READ_LIMIT
    ensures |Tlv(SET, e.digests)| < READ_LIMIT && |Tlv(SEQUENCE, e.encap)| < READ_LIMIT
    ensures |Tlv(CONTEXT0, e.field)| < READ_LIMIT
    ensures |Tlv(OBJECT_IDENTIFIER, OidOctets(IdSignedData()))| < READ_LIMIT
    ensures |Tlv(CONTEXT0, Tlv(SEQUENCE, SignedBytes(e)) + e.afterSigned)| < READ_LIMIT
  {
    TlvLonger(SEQUENCE, InfoBytes(e));
    TlvLonger(CONTEXT0, Tlv(SEQUENCE, SignedBytes(e)) + e.afterSigned);
    TlvLonger(SEQUENCE, SignedBytes(e));
    hide Tlv, ReadInt64, OidOctets;
  }

  lemma TlvLonger(tag: byte, content: bytes)
    ensures |content| < |Tlv(tag, content)|
  {
  }

  lemma SignedFieldComplete(e: Envelope)
    requires Legal(e)
    ensures SignedDataField(Tlv(SEQUENCE, SignedBytes(e)) + e.afterSigned) == Some(e.field)
  {
    EnvelopeNests(e);
    hide ReadTag, Tlv, ReadInt64, EnvelopeBytes, InfoBytes, Legal;
    var after3 := Tlv(CONTEXT0, e.field) + e.afterField;
    var after2 := Tlv(SEQUENCE, e.encap) + after3;
    var after1 := Tlv(SET, e.digests) + after2;
    ReadTagOf(SEQUENCE, SignedBytes(e), e.afterSigned);
    ReadTagOf(INTEGER, e.version, after1);
    ReadTagOf(SET, e.digests, after2);
    ReadTagOf(SEQUENCE, e.encap, after3);
    ReadTagOf(CONTEXT0, e.field, e.afterField);
  }

  lemma FieldComplete(e: Envelope)
    requires Legal(e)
    ensures CertsField(EnvelopeBytes(e)) == Some(e.field)
  {
    hide ReadTag, Tlv, OidOctets, DecodeOid, SignedDataField, SignedBytes, IdSignedData, MarshalAccepts, Faithful;
    var signed := Tlv(SEQUENCE, SignedBytes(e)) + e.afterSigned;
    EnvelopeNests(e);
    IdSignedDataFaithful();
    FaithfulReadBack(IdSignedData());
    SignedFieldComplete(e);
    assert EnvelopeBytes(e) + [] == EnvelopeBytes(e);
    ReadTagOf(SEQUENCE, InfoBytes(e), []);
    ReadTagOf(OBJECT_IDENTIFIER, OidOctets(IdSignedData()), Tlv(CONTEXT0, signed) + e.afterContent);
    ReadTagOf(CONTEXT0, signed, e.afterContent);
  }

  lemma ReadTagSound(s: bytes, tag: byte)
    requires ReadTag(s, tag).Some?
    ensures var e := ReadTag(s, tag).value; s == Tlv(tag, e.content) + e.rest && |Tlv(tag, e.content)| < READ_LIMIT
  {
    var e := ReadTag(s, tag).value;
    ReadTagExact(s, tag, e.content, e.rest);
  }

  lemma SignedFieldSound(s: bytes) returns (e: Envelope)
    requires SignedDataField(s).Some?
    ensures ReadInt64(e.version).Some? && e.afterContent == [] && e.field == SignedDataField(s).value
    ensures s == Tlv(SEQUENCE, SignedBytes(e)) + e.afterSigned
  {
    var signed := ReadTag(s, SEQUENCE).value;
    var version := ReadTag(signed.content, INTEGER).value;
    var digests := ReadTag(version.rest, SET).value;
    var encap := ReadTag(digests.rest, SEQUENCE).value;
    var field := ReadTag(encap.rest, CONTEXT0).value;
    e := Envelope(version.content, digests.content, encap.content, field.content, field.rest, signed.rest, []);
    hide ReadTag, Tlv, ReadInt64;
    ReadTagSound(s, SEQUENCE);
    ReadTagSound(signed.content, INTEGER);
    ReadTagSound(version.rest, SET);
    ReadTagSound(digests.rest, SEQUENCE);
    ReadTagSound(encap.rest, CONTEXT0);
    assert signed.content == SignedBytes(e);
  }

  lemma InfoFieldSound(s: bytes, contentType: Arcs) returns (e: Envelope)
    requires |contentType| >= 2 && Faithful(contentType)
    requires InfoField(s, contentType).Some?
    ensures ReadInt64(e.version).Some? && e.field == InfoField(s, contentType).value
    ensures s == Tlv(OBJECT_IDENTIFIER, OidOctets(contentType))
                 + (Tlv(CONTEXT0, Tlv(SEQUENCE, SignedBytes(e)) + e.afterSigned) + e.afterContent)
  {
    var oid := ReadTag(s, OBJECT_IDENTIFIER).value;
    var explicit := ReadTag(oid.rest, CONTEXT0).value;
    var inner := SignedFieldSound(explicit.content);
    e := inner.(afterContent := explicit.rest);
    SignedSame(e, inner);
    hide ReadTag, Tlv, ReadInt64, DecodeOid, OidOctets, SignedDataField, SignedBytes, Faithful;
    DecodeOidCanonical(oid.content, contentType);
    ReadTagSound(s, OBJECT_IDENTIFIER);
    ReadTagSound(oid.rest, CONTEXT0);
  }

  lemma FieldSound(der: bytes) returns (e: Envelope)
    requires CertsField(der).Some?
    ensures Legal(e) && EnvelopeBytes(e) == der && e.field == CertsField(der).value
  {
    hide IdSignedData, Faithful, OidOctets, Tlv, SignedBytes, ReadTag, ReadInt64, InfoField;
    var info := ReadTag(der, SEQUENCE).value;
    IdSignedDataFaithful();
    e := InfoFieldSound(info.content, IdSignedData());
    ReadTagSound(der, SEQUENCE);
    assert EnvelopeBytes(e) + [] == EnvelopeBytes(e);
  }

  lemma SignedSame(d: Envelope, e: Envelope)
    requires d == e.(afterContent := d.afterContent)
    ensures SignedBytes(d) == SignedBytes(e)
  {
  }

  /** The reader's header checks accept exactly the legal envelopes. */
  lemma AcceptedLanguage(der: bytes, field: bytes)
    ensures CertsField(der) == Some(field) <==>
            exists e: Envelope :: Legal(e) && EnvelopeBytes(e) == der && e.field == field
  {
    if CertsField(der) == Some(field) {
      var e := FieldSound(der);
    }
    forall e: Envelope | Legal(e) && EnvelopeBytes(e) == der && e.field == field
      ensures CertsField(der) == Some(field)
    {
      FieldComplete(e);
    }
  }

  lemma RawsFirst(cert: Certificate, certs: seq<Certificate>)
    ensures Flatten(Raws([cert] + certs)) == cert.raw + Flatten(Raws(certs))
  {
    assert Raws([cert] + certs)[1..] == Raws(certs);
  }

  /** Nothing in an accepted certificates field is lost or skipped. */
  lemma {:induction false} CertsCoverField(field: bytes, parse: CertParser)
    requires KeepsRaw(parse) && Certs(field, parse).Some?
    ensures Flatten(Raws(Certs(field, parse).value)) == field
    decreases |field|
  {
    if field == [] {
      NoCerts(parse);
      assert Raws([]) == [];
    } else {
      CertsUnfold(field, parse);
      hide ReadTag, Certs, Raws, Flatten, Complete;
      var e := ReadTag(field, SEQUENCE).value;
      var raw := field[..|field| - |e.rest|];
      ReadTagSound(field, SEQUENCE);
      CertsCoverField(e.rest, parse);
      RawsFirst(parse(raw).value, Certs(e.rest, parse).value);
      SuffixIs(field, Tlv(SEQUENCE, e.content), e.rest);
    }
  }

  lemma SuffixIs(s: bytes, a: bytes, b: bytes)
    requires s == a + b
    ensures |s| >= |b| && s == s[..|s| - |b|] + b
  {
  }

  // -- Round trip -----------------------------------------------------------------------

  /** Certificates the library would parse from their own bytes. */
  ghost predicate Parsed(certs: seq<Certificate>, parse: CertParser) {
    forall i :: 0 <= i < |certs| ==> Complete(certs[i].raw) && parse(certs[i].raw) == Some(certs[i])
  }

  lemma CertsStep(cert: Certificate, rest: bytes, parse: CertParser)
    requires Complete(cert.raw) && parse(cert.raw) == Some(cert)
    ensures Certs(cert.raw + rest, parse) == Prepend([cert], Certs(rest, parse))
  {
    var raw := cert.raw;
    ReadTagSound(raw, SEQUENCE);
    var body := ReadTag(raw, SEQUENCE).value.content;
    assert Tlv(SEQUENCE, body) + [] == Tlv(SEQUENCE, body);
    ReadTagExact(raw + rest, SEQUENCE, body, rest);
    assert (raw + rest)[..|raw|] == raw;
  }

  lemma {:induction false} CertsOfFlatten(certs: seq<Certificate>, parse: CertParser)
    requires Parsed(certs, parse)
    ensures Certs(Flatten(Raws(certs)), parse) == Some(certs)
    decreases |certs|
  {
    if certs != [] {
      assert Raws(certs)[1..] == Raws(certs[1..]);
      CertsOfFlatten(certs[1..], parse);
      CertsStep(certs[0], Flatten(Raws(certs[1..])), parse);
      assert certs == [certs[0]] + certs[1..];
    }
  }

  /** What EncodeCertsOnly writes, as an envelope. */
  function Canonical(field: bytes): Envelope {
    Envelope([1], [], Tlv(OBJECT_IDENTIFIER, OidOctets(IdData())), field, Tlv(SET, []), [], [])
  }

  lemma ElemIs(tag: byte, body: Wire)
    requires LowTag(tag)
    ensures Elem(tag, body) == if body.Some? && |body.value| <= MAX_CONTENT then Some(Tlv(tag, body.value)) else None
  {
  }

  lemma VersionOne()
    ensures IntOctets(1) == [1] && ReadInt64([1]).Some? && LowTag(INTEGER) && LowTag(SET)
    ensures LowTag(SEQUENCE) && LowTag(CONTEXT0) && LowTag(OBJECT_IDENTIFIER)
    ensures BuilderAccepts(IdData()) && BuilderAccepts(IdSignedData())
  {
  }

  lemma TailWireIs(field: bytes)
    requires TailWire(field).Some?
    ensures TailWire(field).value == Tlv(SEQUENCE, Tlv(OBJECT_IDENTIFIER, OidOctets(IdData())))
                                     + (Tlv(CONTEXT0, field) + Tlv(SET, []))
  {
    hide Tlv, OidOctets, Elem, LowTag, BuilderAccepts, IdData;
    VersionOne();
    ElemIs(SET, Some([]));
    ElemIs(OBJECT_IDENTIFIER, Some(OidOctets(IdData())));
    ElemIs(SEQUENCE, OidWire(IdData()));
    ElemIs(CONTEXT0, Some(field));
  }

  lemma SignedWireIs(field: bytes)
    requires SignedDataWire(field).Some?
    ensures |SignedBytes(Canonical(field))| <= MAX_CONTENT
    ensures SignedDataWire(field).value == Tlv(SEQUENCE, SignedBytes(Canonical(field)))
  {
    hide Tlv, OidOctets, IntOctets, Elem, TailWire, LowTag, BuilderAccepts, IdData;
    VersionOne();
    ElemIs(SEQUENCE, BodyWire(field));
    ElemIs(INTEGER, Some([1]));
    ElemIs(SET, Some([]));
    TailWireIs(field);
  }

  lemma EncodeWireIsEnvelope(field: bytes)
    requires EncodeWire(field).Some?
    ensures |InfoBytes(Canonical(field))| <= MAX_CONTENT
    ensures EncodeWire(field).value == EnvelopeBytes(Canonical(field))
  {
    hide Tlv, OidOctets, Elem, LowTag, BuilderAccepts, IdData, IdSignedData, SignedDataWire, SignedBytes;
    VersionOne();
    ElemIs(OBJECT_IDENTIFIER, Some(OidOctets(IdSignedData())));
    ElemIs(CONTEXT0, SignedDataWire(field));
    ElemIs(SEQUENCE, Cat(OidWire(IdSignedData()), Elem(CONTEXT0, SignedDataWire(field))));
    SignedWireIs(field);
    var signed := Tlv(SEQUENCE, SignedBytes(Canonical(field)));
    assert signed + [] == signed;
    assert Tlv(CONTEXT0, signed) + [] == Tlv(CONTEXT0, signed);
  }

  /**
   The encoding is decoded to the same certificates exactly when the reader can count it in
   32 bits; the builder's own limit is five octets more generous.
   */
  lemma RoundTrip(certs: seq<Certificate>, parse: CertParser)
    requires Parsed(certs, parse)
    ensures match EncodeWire(Flatten(Raws(certs)))
            case Some(der) => Decode(der, parse) == if |der| < READ_LIMIT then Some(certs) else None
            case None => true
  {
    var field := Flatten(Raws(certs));
    hide EncodeWire, EnvelopeBytes, CertsField, Certs, OidOctets;
    if EncodeWire(field).Some? {
      var der := EncodeWire(field).value;
      VersionOne();
      EncodeWireIsEnvelope(field);
      if |der| < READ_LIMIT {
        FieldComplete(Canonical(field));
        CertsOfFlatten(certs, parse);
      } else if CertsField(der).Some? {
        var e := FieldSound(der);
      }
    }
  }

  lemma {:induction false} FlattenInjective(a: seq<bytes>, b: seq<bytes>)
    requires forall i :: 0 <= i < |a| ==> Complete(a[i])
    requires forall i :: 0 <= i < |b| ==> Complete(b[i])
    requires Flatten(a) == Flatten(b)
    ensures a == b
    decreases |a|
  {
    if a != [] && b != [] {
      FirstElement(a);
      FirstElement(b);
      FlattenInjective(a[1..], b[1..]);
      assert a == [a[0]] + a[1..] && b == [b[0]] + b[1..];
    } else if a != [] {
      FirstElement(a);
    } else if b != [] {
      FirstElement(b);
    }
  }

  lemma FirstElement(raws: seq<bytes>)
    requires raws != [] && Complete(raws[0])
    ensures ReadTag(Flatten(raws), SEQUENCE).Some?
    ensures var e := ReadTag(Flatten(raws), SEQUENCE).value;
            raws[0] == Tlv(SEQUENCE, e.content) && e.rest == Flatten(raws[1..])
  {
    ReadTagSound(raws[0], SEQUENCE);
    var body := ReadTag(raws[0], SEQUENCE).value.content;
    assert Tlv(SEQUENCE, body) + [] == Tlv(SEQUENCE, body);
    ReadTagExact(Flatten(raws), SEQUENCE, body, Flatten(raws[1..]));
  }

  lemma TlvInjective(tag: byte, a: bytes, x: bytes, b: bytes, y: bytes)
    requires LowTag(tag) && |a| < READ_LIMIT && |b| < READ_LIMIT
    requires Tlv(tag, a) + x == Tlv(tag, b) + y
    ensures a == b && x == y
  {
    SplitTlv(tag, a, x);
    SplitTlv(tag, b, y);
  }

  /** Different lists of certificate elements never get the same encoding. */
  lemma EncodeInjective(a: seq<bytes>, b: seq<bytes>)
    requires forall i :: 0 <= i < |a| ==> Complete(a[i])
    requires forall i :: 0 <= i < |b| ==> Complete(b[i])
    ensures EncodeWire(Flatten(a)).Some? && EncodeWire(Flatten(a)) == EncodeWire(Flatten(b)) ==> a == b
  {
    hide EncodeWire, EnvelopeBytes, Complete;
    if EncodeWire(Flatten(a)).Some? && EncodeWire(Flatten(a)) == EncodeWire(Flatten(b)) {
      EncodeWireIsEnvelope(Flatten(a));
      EncodeWireIsEnvelope(Flatten(b));
      EnvelopeInjective(Canonical(Flatten(a)), Canonical(Flatten(b)));
      FlattenInjective(a, b);
    }
  }

  lemma EnvelopeInjective(d: Envelope, e: Envelope)
    requires |InfoBytes(d)| < READ_LIMIT && |InfoBytes(e)| < READ_LIMIT
    requires EnvelopeBytes(d) == EnvelopeBytes(e)
    ensures d == e
  {
    var sd, se := Tlv(SEQUENCE, SignedBytes(d)), Tlv(SEQUENCE, SignedBytes(e));
    var id, ie := Tlv(CONTEXT0, sd + d.afterSigned) + d.afterContent,
        Tlv(CONTEXT0, se + e.afterSigned) + e.afterContent;
    hide OidOctets, SignedBytes;
    assert EnvelopeBytes(d) + [] == EnvelopeBytes(d) && EnvelopeBytes(e) + [] == EnvelopeBytes(e);
    TlvInjective(SEQUENCE, InfoBytes(d), [], InfoBytes(e), []);
    TlvInjective(OBJECT_IDENTIFIER, OidOctets(IdSignedData()), id, OidOctets(IdSignedData()), ie);
    TlvInjective(CONTEXT0, sd + d.afterSigned, d.afterContent, se + e.afterSigned, e.afterContent);
    TlvInjective(SEQUENCE, SignedBytes(d), d.afterSigned, SignedBytes(e), e.afterSigned);
    SignedInjective(d, e);
  }

  lemma SignedInjective(d: Envelope, e: Envelope)
    requires |SignedBytes(d)| < READ_LIMIT && SignedBytes(d) == SignedBytes(e)
    ensures d.version == e.version && d.digests == e.digests && d.encap == e.encap
    ensures d.field == e.field && d.afterField == e.afterField
  {
    var d3, e3 := Tlv(CONTEXT0, d.field) + d.afterField, Tlv(CONTEXT0, e.field) + e.afterField;
    var d2, e2 := Tlv(SEQUENCE, d.encap) + d3, Tlv(SEQUENCE, e.encap) + e3;
    var d1, e1 := Tlv(SET, d.digests) + d2, Tlv(SET, e.digests) + e2;
    TlvInjective(INTEGER, d.version, d1, e.version, e1);
    TlvInjective(SET, d.digests, d2, e.digests, e2);
    TlvInjective(SEQUENCE, d.encap, d3, e.encap, e3);
    TlvInjective(CONTEXT0, d.field, d.afterField, e.field, e.afterField);
  }
}
