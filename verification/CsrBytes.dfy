/** The CsrAttrs entries byte by byte: every tag, default and fixed identifier of the grammar. */
module CsrBytes {
  import opened Common
  import opened Der
  import opened Oid
  import opened CsrGrammar
  import opened Pkcs7Bytes

  function OidBytes(oid: Arcs): bytes {
    Tlv(0x06, if |oid| >= 2 then OidOctets(oid) else [])
  }

  lemma OidTreeBytes(oid: Arcs)
    ensures Encode(OidTree(oid)) == OidBytes(oid)
  {
    hide Tlv, OidOctets;
  }

  /** The identifiers the program itself writes. */
  lemma KnownIdentifiers()
    ensures OidBytes(IdChallengePassword()) == [0x06, 0x09, 0x2a, 0x86, 0x48, 0x86, 0xf7, 0x0d, 0x01, 0x09, 0x07]
    ensures OidBytes(IdExtensionReq()) == [0x06, 0x09, 0x2a, 0x86, 0x48, 0x86, 0xf7, 0x0d, 0x01, 0x09, 0x0e]
    ensures OidBytes(IdRequestTemplate())
         == [0x06, 0x0b, 0x2a, 0x86, 0x48, 0x86, 0xf7, 0x0d, 0x01, 0x09, 0x10, 0x02, 0x3d]
    ensures OidBytes(IdExtensionReqTemplate())
         == [0x06, 0x0b, 0x2a, 0x86, 0x48, 0x86, 0xf7, 0x0d, 0x01, 0x09, 0x10, 0x02, 0x3e]
  {
    hide Tlv, OidOctets;
    Pkcs9([7]);
    Pkcs9([14]);
    Pkcs9([16, 2, 61]);
    Pkcs9([16, 2, 62]);
    assert [1, 2, 840, 113549, 1, 9] + [7] == IdChallengePassword();
    assert [1, 2, 840, 113549, 1, 9] + [14] == IdExtensionReq();
    assert [1, 2, 840, 113549, 1, 9] + [16, 2, 61] == IdRequestTemplate();
    assert [1, 2, 840, 113549, 1, 9] + [16, 2, 62] == IdExtensionReqTemplate();
  }

  lemma Pkcs9(rest: seq<byte>)
    requires |rest| < 100 && Small(rest)
    ensures var arcs: Arcs := rest;
            OidBytes([1, 2, 840, 113549, 1, 9] + arcs)
            == [0x06, 8 + |rest|, 0x2a, 0x86, 0x48, 0x86, 0xf7, 0x0d, 0x01, 0x09] + rest
  {
    var arcs: seq<int> := rest;
    var oid := [1, 2, 840, 113549, 1, 9] + arcs;
    hide OidOctets, Tlv, Map;
    RsaOctets([1, 9] + arcs);
    assert [1, 2, 840, 113549] + ([1, 9] + arcs) == oid;
    OctetsAsGiven([0x01, 0x09] + rest, [1, 9] + arcs);
    var octets := [0x2a, 0x86, 0x48, 0x86, 0xf7, 0x0d, 0x01, 0x09] + rest;
    assert OidOctets(oid) == octets;
    ShortTlv(0x06, octets);
  }

  /** Critical only when true, as the octet 0xff; the value only when there is one. */
  lemma ExtBytes(e: Ext)
    ensures Encode(ExtTree(e))
         == Tlv(0x30, OidBytes(e.oid) + (if e.critical then [0x01, 0x01, 0xff] else [])
                      + (if e.value.Some? then Tlv(0x04, e.value.value) else []))
  {
    ShortTlv(0x01, [0xff]);
    hide Tlv, OidOctets, OidTree;
    OidTreeBytes(e.oid);
    var critical := if e.critical then [Prim(0x01, [0xff])] else [];
    var value := if e.value.Some? then [Prim(0x04, e.value.value)] else [];
    var kids := [OidTree(e.oid)] + critical + value;
    assert ExtTree(e) == Cons(0x30, kids);
    AtMostThree(OidTree(e.oid), critical, value);
    assert [0x01, 1] + [0xff] == [0x01, 0x01, 0xff];
  }

  function IfAny(ts: seq<Tree>): bytes {
    if ts == [] then [] else Encode(ts[0])
  }

  lemma AtMostOne(ts: seq<Tree>)
    requires |ts| <= 1
    ensures EncodeAll(ts) == IfAny(ts)
  {
    hide Encode;
    if ts != [] {
      EncodeAllOne(ts[0]);
      assert ts == [ts[0]];
    }
  }

  lemma AtMostThree(t: Tree, us: seq<Tree>, vs: seq<Tree>)
    requires |us| <= 1 && |vs| <= 1
    ensures EncodeAll([t] + us + vs) == Encode(t) + IfAny(us) + IfAny(vs)
  {
    EncodeAllOne(t);
    AtMostOne(us);
    AtMostOne(vs);
    hide Encode, EncodeAll, IfAny;
    EncodeAllConcat([t], us);
    EncodeAllConcat([t] + us, vs);
  }

  lemma Single(t: Tree)
    ensures EncodeAll([t]) == Encode(t)
  {
    EncodeAllOne(t);
  }

  /** A SET of one SEQUENCE; a dictated value is a UTF8String. */
  lemma NameBytes(n: Name)
    ensures Encode(NameTree(n))
         == Tlv(0x31, Tlv(0x30, OidBytes(n.oid) + (if n.value.Some? then Tlv(0x0c, n.value.value) else [])))
  {
    hide Tlv, OidOctets, OidTree;
    OidTreeBytes(n.oid);
    var value := if n.value.Some? then [Prim(0x0c, n.value.value)] else [];
    AtMostThree(OidTree(n.oid), value, []);
    assert [OidTree(n.oid)] + value + [] == [OidTree(n.oid)] + value;
    var inner := Cons(0x30, [OidTree(n.oid)] + value);
    Single(inner);
    assert NameTree(n) == Cons(0x31, [inner]);
    var b := OidBytes(n.oid) + (if n.value.Some? then Tlv(0x0c, n.value.value) else []);
    assert b + [] == b;
  }

  lemma KeyTypeBytes(k: KeyType)
    ensures Encode(KeyTypeTree(k))
         == Tlv(0xa0, Tlv(0x30, OidBytes(k.oid) + (if k.curve.Some? then OidBytes(k.curve.value) else [])))
  {
    hide Tlv, OidOctets, OidTree;
    OidTreeBytes(k.oid);
    if k.curve.Some? {
      OidTreeBytes(k.curve.value);
    }
    var curve := if k.curve.Some? then [OidTree(k.curve.value)] else [];
    AtMostThree(OidTree(k.oid), curve, []);
    assert [OidTree(k.oid)] + curve + [] == [OidTree(k.oid)] + curve;
    var inner := Cons(0x30, [OidTree(k.oid)] + curve);
    Single(inner);
    assert KeyTypeTree(k) == Cons(0xa0, [inner]);
    var b := OidBytes(k.oid) + (if k.curve.Some? then OidBytes(k.curve.value) else []);
    assert b + [] == b;
  }

  lemma AttributeBytes(oid: Arcs, values: seq<Tree>)
    ensures Encode(AttributeTree(oid, values)) == Tlv(0x30, OidBytes(oid) + Tlv(0x31, EncodeAll(values)))
  {
    hide Tlv, OidOctets, OidTree;
    OidTreeBytes(oid);
    var set_ := Cons(0x31, values);
    AtMostThree(OidTree(oid), [set_], []);
    assert [OidTree(oid)] + [set_] + [] == [OidTree(oid), set_];
    assert AttributeTree(oid, values) == Cons(0x30, [OidTree(oid), set_]);
    var b := OidBytes(oid) + Tlv(0x31, EncodeAll(values));
    assert b + [] == b;
  }

  lemma ExtsBytes(exts: seq<Ext>)
    ensures Encode(ExtsTree(exts)) == Tlv(0x30, EncodeAll(Map(ExtTree, exts)))
  {
    hide Tlv, ExtTree;
  }

  /** Empty without extensions; else one attribute, whose identifier says whether every value is there. */
  lemma AttributesBytes(exts: seq<Ext>)
    ensures Encode(AttributesTree(exts))
         == Tlv(0xa1,
              if exts == [] then []
              else Tlv(0x30, (if forall i :: 0 <= i < |exts| ==> exts[i].value.Some? then
                                [0x06, 0x09, 0x2a, 0x86, 0x48, 0x86, 0xf7, 0x0d, 0x01, 0x09, 0x0e]
                              else
                                [0x06, 0x0b, 0x2a, 0x86, 0x48, 0x86, 0xf7, 0x0d, 0x01, 0x09, 0x10, 0x02, 0x3e])
                             + Tlv(0x31, Tlv(0x30, EncodeAll(Map(ExtTree, exts))))))
  {
    KnownIdentifiers();
    hide Tlv, OidBytes, ExtsTree, AttributeTree, IdExtensionReq, IdExtensionReqTemplate;
    ExtsBytes(exts);
    AttributeBytes(IdExtensionReq(), [ExtsTree(exts)]);
    AttributeBytes(IdExtensionReqTemplate(), [ExtsTree(exts)]);
    Single(ExtsTree(exts));
    Single(AttributeTree(IdExtensionReq(), [ExtsTree(exts)]));
    Single(AttributeTree(IdExtensionReqTemplate(), [ExtsTree(exts)]));
  }

  /** Version zero, then the subject if it has names, the key if there is one, and the attributes. */
  lemma TemplateBytes(t: RequestTemplate)
    ensures Encode(TemplateTree(t))
         == Tlv(0x30, [0x02, 0x01, 0x00]
                      + ((if t.subject == [] then [] else Tlv(0x30, EncodeAll(Map(NameTree, t.subject))))
                         + ((if t.key.Some? then Encode(KeyTypeTree(t.key.value)) else [])
                            + Encode(AttributesTree(t.exts)))))
  {
    ShortTlv(0x02, [0]);
    assert IntOctets(0) == [0];
    assert [0x02, 1] + [0] == [0x02, 0x01, 0x00];
    hide Tlv, IntOctets, NameTree, KeyTypeTree, AttributesTree;
    var version := Prim(0x02, IntOctets(0));
    var names := Map(NameTree, t.subject);
    var subject := if t.subject == [] then [] else [Cons(0x30, names)];
    var key := if t.key.Some? then [KeyTypeTree(t.key.value)] else [];
    var attributes := AttributesTree(t.exts);
    assert names == [] <==> t.subject == [];
    assert TemplateTree(t) == Cons(0x30, [version] + subject + key + [attributes]);
    FourParts(version, subject, key, attributes);
  }

  lemma FourParts(t: Tree, us: seq<Tree>, vs: seq<Tree>, w: Tree)
    requires |us| <= 1 && |vs| <= 1
    ensures EncodeAll([t] + us + vs + [w]) == Encode(t) + (IfAny(us) + (IfAny(vs) + Encode(w)))
  {
    AtMostThree(t, us, vs);
    EncodeAllOne(w);
    hide Encode, EncodeAll, IfAny;
    EncodeAllConcat([t] + us + vs, [w]);
    ConcatAssoc(Encode(t) + IfAny(us), IfAny(vs), Encode(w));
    ConcatAssoc(Encode(t), IfAny(us), IfAny(vs) + Encode(w));
  }

  /** Each kind of entry. */
  lemma EntryBytes(e: Entry)
    ensures e.Bare? ==> Encode(EntryTree(e)) == OidBytes(e.oid)
    ensures e.Key? ==>
              var param := match e.param
                           case Absent => []
                           case Curve(curve) => OidBytes(curve)
                           case Bits(bits) => Tlv(0x02, IntOctets(bits));
              Encode(EntryTree(e)) == Tlv(0x30, OidBytes(e.oid) + Tlv(0x31, param))
    ensures e.Extensions? ==>
              Encode(EntryTree(e))
              == Tlv(0x30, [0x06, 0x09, 0x2a, 0x86, 0x48, 0x86, 0xf7, 0x0d, 0x01, 0x09, 0x0e]
                           + Tlv(0x31, Tlv(0x30, EncodeAll(Map(ExtTree, e.exts)))))
    ensures e.Template? ==>
              Encode(EntryTree(e))
              == Tlv(0x30, [0x06, 0x0b, 0x2a, 0x86, 0x48, 0x86, 0xf7, 0x0d, 0x01, 0x09, 0x10, 0x02, 0x3d]
                           + Tlv(0x31, Encode(TemplateTree(e.template))))
  {
    KnownIdentifiers();
    hide Tlv, OidBytes, OidTree, ExtsTree, TemplateTree, AttributeTree, IdExtensionReq, IdRequestTemplate, IntOctets;
    match e {
      case Bare(oid) => OidTreeBytes(oid);
      case Key(oid, param) =>
        AttributeBytes(oid, ParamTrees(param));
        match param {
          case Absent =>
          case Curve(curve) =>
            OidTreeBytes(curve);
            Single(OidTree(curve));
          case Bits(bits) => Single(Prim(0x02, IntOctets(bits)));
        }
      case Extensions(exts) =>
        ExtsBytes(exts);
        Single(ExtsTree(exts));
        AttributeBytes(IdExtensionReq(), [ExtsTree(exts)]);
      case Template(t) =>
        Single(TemplateTree(t));
        AttributeBytes(IdRequestTemplate(), [TemplateTree(t)]);
    }
  }
}
