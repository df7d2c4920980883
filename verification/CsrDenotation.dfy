/** The entries a set of options stands for, said field by field and on the characters of its strings. */
module CsrDenotation {
  import opened Common
  import opened Oid
  import opened Spelling
  import opened CsrGrammar
  import opened CsrAttrs
  import Text

  // -- Reading identifiers ------------------------------------------------------------------

  lemma OidOfExactly(s: string, oid: Arcs)
    ensures OidOf(s) == Some(oid) <==> Identifier(s, oid)
    ensures MarshalOidOf(s) == Some(oid) <==> MarshalIdentifier(s, oid)
  {
    hide Text.ParseOid, Identifier, MarshalIdentifier, BuilderAccepts, MarshalAccepts;
    IdentifierExactly(s, oid);
  }

  lemma OidSpelledExactly(s: string)
    ensures OidOf(s).Some? <==> SpellsIdentifier(s)
    ensures MarshalOidOf(s).Some? <==> SpellsMarshalIdentifier(s)
  {
    hide OidOf, MarshalOidOf, Identifier, MarshalIdentifier;
    if OidOf(s).Some? {
      OidOfExactly(s, OidOf(s).value);
    }
    if MarshalOidOf(s).Some? {
      OidOfExactly(s, MarshalOidOf(s).value);
    }
    forall oid: seq<int> ensures Identifier(s, oid) ==> OidOf(s).Some?
      ensures MarshalIdentifier(s, oid) ==> MarshalOidOf(s).Some?
    {
      OidOfExactly(s, oid);
    }
  }

  // -- What each part says --------------------------------------------------------------------

  ghost predicate BareSays(dotted: string, e: Entry) {
    e.Bare? && Identifier(dotted, e.oid)
  }

  /** An extension with its value. */
  ghost predicate ExtSays(oid: string, critical: bool, valueHex: string, e: Ext) {
    MarshalIdentifier(oid, e.oid) && e.critical == critical && e.value.Some? && HexSpells(valueHex, e.value.value)
  }

  /** An extension whose value may be left to the client. */
  ghost predicate BlankableSays(t: TemplateExtension, e: Ext) {
    && Identifier(t.oid, e.oid) && e.critical == t.critical
    && (t.valueHex.Some? <==> e.value.Some?)
    && (t.valueHex.Some? ==> HexSpells(t.valueHex.value, e.value.value))
  }

  ghost predicate NameSays(rdn: Rdn, n: Name) {
    Identifier(rdn.oid, n.oid) && n.value == rdn.value
  }

  /** The curve if one is given, else the modulus size if one is given, else nothing. */
  ghost predicate KeySays(ka: KeyAlgorithm, e: Entry) {
    && e.Key? && Identifier(ka.oid, e.oid)
    && (ka.curveOid != "" ==> e.param.Curve? && Identifier(ka.curveOid, e.param.curve))
    && (ka.curveOid == "" && ka.rsaModulusBits != 0 ==> e.param == Bits(ka.rsaModulusBits))
    && (ka.curveOid == "" && ka.rsaModulusBits == 0 ==> e.param == Absent)
  }

  ghost predicate KeyTypeSays(ka: KeyAlgorithm, k: KeyType) {
    && Identifier(ka.oid, k.oid)
    && (ka.curveOid != "" ==> k.curve.Some? && Identifier(ka.curveOid, k.curve.value))
    && (ka.curveOid == "" ==> k.curve.None?)
  }

  ghost predicate RequiredSays(exts: seq<Extension>, e: Entry) {
    && e.Extensions? && |e.exts| == |exts|
    && forall i :: 0 <= i < |exts| ==> ExtSays(exts[i].oid, exts[i].critical, exts[i].valueHex, e.exts[i])
  }

  /** Encoded as a whole when every value is there, otherwise one by one. */
  ghost predicate TemplateExtsSay(ts: seq<TemplateExtension>, es: seq<Ext>) {
    && |es| == |ts|
    && if forall i :: 0 <= i < |ts| ==> ts[i].valueHex.Some? then
         forall i :: 0 <= i < |ts| ==> ExtSays(ts[i].oid, ts[i].critical, ts[i].valueHex.value, es[i])
       else
         forall i :: 0 <= i < |ts| ==> BlankableSays(ts[i], es[i])
  }

  ghost predicate SubjectSays(rdns: seq<Rdn>, names: seq<Name>) {
    |names| == |rdns| && forall i :: 0 <= i < |rdns| ==> NameSays(rdns[i], names[i])
  }

  ghost predicate TemplateSays(t: CsrTemplate, r: RequestTemplate) {
    && SubjectSays(t.subject, r.subject)
    && (t.keyType.Some? <==> r.key.Some?)
    && (t.keyType.Some? ==> KeyTypeSays(t.keyType.value, r.key.value))
    && TemplateExtsSay(t.extensions, r.exts)
  }

  function Have(present: bool): nat {
    if present then 1 else 0
  }

  /** The challenge password, the key, the required extensions, the extra identifiers, the template. */
  ghost predicate Denotes(o: Options, es: seq<Entry>) {
    var key := Have(o.challengePassword);
    var exts := key + Have(o.keyAlgorithm.Some?);
    var extra := exts + Have(o.requiredExtensions != []);
    var template := extra + |o.extraOids|;
    && |es| == template + Have(o.template.Some?)
    && (o.challengePassword ==> es[0] == Bare([1, 2, 840, 113549, 1, 9, 7]))
    && (o.keyAlgorithm.Some? ==> KeySays(o.keyAlgorithm.value, es[key]))
    && (o.requiredExtensions != [] ==> RequiredSays(o.requiredExtensions, es[exts]))
    && (forall i :: 0 <= i < |o.extraOids| ==> BareSays(o.extraOids[i], es[extra + i]))
    && (o.template.Some? ==> es[template].Template? && TemplateSays(o.template.value, es[template].template))
  }

  // -- They are what the writer is asked for ----------------------------------------------------

  lemma BareExactly(dotted: string, e: Entry)
    ensures BareOf(dotted) == Some(e) <==> BareSays(dotted, e)
  {
    hide OidOf, Identifier;
    if e.Bare? {
      OidOfExactly(dotted, e.oid);
    }
  }

  lemma ExtExactly(x: Extension, e: Ext)
    ensures ExtOf(x) == Some(e) <==> ExtSays(x.oid, x.critical, x.valueHex, e)
  {
    hide MarshalOidOf, MarshalIdentifier, Text.HexDecode, HexSpells;
    OidOfExactly(x.oid, e.oid);
    if e.value.Some? {
      HexExactly(x.valueHex, e.value.value);
    }
  }

  lemma BlankableExactly(t: TemplateExtension, e: Ext)
    ensures BlankableExtOf(t) == Some(e) <==> BlankableSays(t, e)
  {
    hide OidOf, Identifier, Text.HexDecode, HexSpells;
    OidOfExactly(t.oid, e.oid);
    if e.value.Some? && t.valueHex.Some? {
      HexExactly(t.valueHex.value, e.value.value);
    }
  }

  lemma NameExactly(rdn: Rdn, n: Name)
    ensures NameOf(rdn) == Some(n) <==> NameSays(rdn, n)
  {
    hide OidOf, Identifier;
    OidOfExactly(rdn.oid, n.oid);
  }

  lemma KeyExactly(ka: KeyAlgorithm, e: Entry)
    ensures KeyOf(ka) == Some(e) <==> KeySays(ka, e)
  {
    hide OidOf, Identifier;
    if e.Key? {
      OidOfExactly(ka.oid, e.oid);
      if e.param.Curve? {
        OidOfExactly(ka.curveOid, e.param.curve);
      }
    }
  }

  lemma KeyTypeExactly(ka: KeyAlgorithm, k: KeyType)
    ensures KeyTypeOf(ka) == Some(k) <==> KeyTypeSays(ka, k)
  {
    hide OidOf, Identifier;
    OidOfExactly(ka.oid, k.oid);
    if k.curve.Some? {
      OidOfExactly(ka.curveOid, k.curve.value);
    }
  }

  /** A list is read item by item. */
  lemma TraverseExactly<A, B>(f: A -> Option<B>, xs: seq<A>, ys: seq<B>)
    ensures Traverse(f, xs) == Some(ys) <==> |ys| == |xs| && forall i :: 0 <= i < |xs| ==> f(xs[i]) == Some(ys[i])
  {
    if |ys| == |xs| && forall i :: 0 <= i < |xs| ==> f(xs[i]) == Some(ys[i]) {
      assert forall i :: 0 <= i < |xs| ==> f(xs[i]).Some?;
      assert Traverse(f, xs).value == ys;
    }
  }

  lemma RequiredExactly(exts: seq<Extension>, e: Entry)
    ensures RequiredOf(exts) == Some(e) <==> RequiredSays(exts, e)
  {
    hide ExtOf, ExtSays, Traverse;
    if e.Extensions? {
      TraverseExactly(ExtOf, exts, e.exts);
      forall i | 0 <= i < |exts| && |e.exts| == |exts|
        ensures ExtOf(exts[i]) == Some(e.exts[i]) <==>
                  ExtSays(exts[i].oid, exts[i].critical, exts[i].valueHex, e.exts[i])
      {
        ExtExactly(exts[i], e.exts[i]);
      }
    }
  }

  lemma TemplateExtsExactly(ts: seq<TemplateExtension>, es: seq<Ext>)
    ensures TemplateExtsOf(ts) == Some(es) <==> TemplateExtsSay(ts, es)
  {
    hide ExtOf, BlankableExtOf, ExtSays, BlankableSays, Traverse;
    if AllPresent(ts) {
      var full := Full(ts);
      TraverseExactly(ExtOf, full, es);
      forall i | 0 <= i < |ts| && |es| == |ts|
        ensures ExtOf(full[i]) == Some(es[i]) <==> ExtSays(ts[i].oid, ts[i].critical, ts[i].valueHex.value, es[i])
      {
        ExtExactly(full[i], es[i]);
      }
    } else {
      TraverseExactly(BlankableExtOf, ts, es);
      forall i | 0 <= i < |ts| && |es| == |ts|
        ensures BlankableExtOf(ts[i]) == Some(es[i]) <==> BlankableSays(ts[i], es[i])
      {
        BlankableExactly(ts[i], es[i]);
      }
    }
  }

  lemma SubjectExactly(rdns: seq<Rdn>, names: seq<Name>)
    ensures Traverse(NameOf, rdns) == Some(names) <==> SubjectSays(rdns, names)
  {
    hide NameOf, NameSays, Traverse;
    TraverseExactly(NameOf, rdns, names);
    forall i | 0 <= i < |rdns| && |names| == |rdns|
      ensures NameOf(rdns[i]) == Some(names[i]) <==> NameSays(rdns[i], names[i])
    {
      NameExactly(rdns[i], names[i]);
    }
  }

  lemma TemplateExactly(t: CsrTemplate, r: RequestTemplate)
    ensures TemplateOf(t) == Some(r) <==> TemplateSays(t, r)
  {
    hide Traverse, NameOf, KeyTypeOf, TemplateExtsOf, SubjectSays, KeyTypeSays, TemplateExtsSay;
    SubjectExactly(t.subject, r.subject);
    TemplateExtsExactly(t.extensions, r.exts);
    if t.keyType.Some? && r.key.Some? {
      KeyTypeExactly(t.keyType.value, r.key.value);
    }
  }

  lemma RequestExactly(t: CsrTemplate, e: Entry)
    ensures RequestOf(t) == Some(e) <==> e.Template? && TemplateSays(t, e.template)
  {
    hide TemplateOf, TemplateSays;
    if e.Template? {
      TemplateExactly(t, e.template);
    }
  }

  lemma ExtraExactly(oids: seq<string>, es: seq<Entry>)
    ensures Traverse(BareOf, oids) == Some(es) <==>
              |es| == |oids| && forall i :: 0 <= i < |oids| ==> BareSays(oids[i], es[i])
  {
    hide BareOf, BareSays, Traverse;
    TraverseExactly(BareOf, oids, es);
    forall i | 0 <= i < |oids| && |es| == |oids| ensures BareOf(oids[i]) == Some(es[i]) <==> BareSays(oids[i], es[i]) {
      BareExactly(oids[i], es[i]);
    }
  }

  lemma ChallengeIs()
    ensures BareOf(CHALLENGE_PASSWORD_OID) == Some(Bare([1, 2, 840, 113549, 1, 9, 7]))
  {
    KnownStrings();
    hide OidOf;
  }

  /** Five parts in a row. */
  lemma PartsAppended(a: Option<seq<Entry>>, b: Option<seq<Entry>>, c: Option<seq<Entry>>, d: Option<seq<Entry>>,
                      e: Option<seq<Entry>>, es: seq<Entry>, i: nat, j: nat, k: nat, l: nat)
    requires a.Some? ==> |a.value| == i
    requires b.Some? ==> |b.value| == j
    requires c.Some? ==> |c.value| == k
    requires d.Some? ==> |d.value| == l
    ensures Append(Append(Append(Append(a, b), c), d), e) == Some(es) <==>
            && |es| >= i + j + k + l
            && a == Some(es[..i]) && b == Some(es[i..i + j]) && c == Some(es[i + j..i + j + k])
            && d == Some(es[i + j + k..i + j + k + l]) && e == Some(es[i + j + k + l..])
  {
    var n := i + j + k + l;
    if |es| >= n {
      assert es == es[..i] + es[i..i + j] + es[i + j..i + j + k] + es[i + j + k..n] + es[n..];
    }
    if a.Some? && b.Some? && c.Some? && d.Some? && e.Some? {
      Slices(a.value, b.value, c.value, d.value, e.value);
    }
  }

  lemma Slices(a: seq<Entry>, b: seq<Entry>, c: seq<Entry>, d: seq<Entry>, e: seq<Entry>)
    ensures var es := a + b + c + d + e;
            var i, j, k, l := |a|, |b|, |c|, |d|;
            && es[..i] == a && es[i..i + j] == b && es[i + j..i + j + k] == c
            && es[i + j + k..i + j + k + l] == d && es[i + j + k + l..] == e
  {
  }

  lemma OnePart(wanted: bool, o: Option<Entry>, es: seq<Entry>)
    ensures (if wanted then One(o) else Some([])) == Some(es) <==>
              |es| == Have(wanted) && (wanted ==> o == Some(es[0]))
  {
    if |es| == 1 {
      assert es == [es[0]];
    }
  }

  /** The entries written are exactly the ones the options denote. */
  lemma EntriesDenoted(o: Options, es: seq<Entry>)
    ensures EntriesOf(o) == Some(es) <==> Denotes(o, es)
  {
    hide BareOf, KeyOf, RequiredOf, RequestOf, Traverse, Append, KeySays, RequiredSays, BareSays, TemplateSays;
    var i, j := Have(o.challengePassword), Have(o.keyAlgorithm.Some?);
    var k, l := Have(o.requiredExtensions != []), |o.extraOids|;
    var challenge := if o.challengePassword then One(BareOf(CHALLENGE_PASSWORD_OID)) else Some([]);
    var key := if o.keyAlgorithm.Some? then One(KeyOf(o.keyAlgorithm.value)) else Some([]);
    var required := if o.requiredExtensions != [] then One(RequiredOf(o.requiredExtensions)) else Some([]);
    var extra := Traverse(BareOf, o.extraOids);
    var request := if o.template.Some? then One(RequestOf(o.template.value)) else Some([]);
    ExtraLength(o.extraOids);
    PartsAppended(challenge, key, required, extra, request, es, i, j, k, l);
    if |es| >= i + j + k + l {
      PartsExactly(o, es, i, j, k, l);
    }
  }

  lemma ExtraLength(oids: seq<string>)
    ensures Traverse(BareOf, oids).Some? ==> |Traverse(BareOf, oids).value| == |oids|
  {
    hide BareOf;
  }

  lemma PartsExactly(o: Options, es: seq<Entry>, i: nat, j: nat, k: nat, l: nat)
    requires i == Have(o.challengePassword) && j == Have(o.keyAlgorithm.Some?)
    requires k == Have(o.requiredExtensions != []) && l == |o.extraOids| && |es| >= i + j + k + l
    ensures Denotes(o, es) <==>
            && (if o.challengePassword then One(BareOf(CHALLENGE_PASSWORD_OID)) else Some([])) == Some(es[..i])
            && (if o.keyAlgorithm.Some? then One(KeyOf(o.keyAlgorithm.value)) else Some([])) == Some(es[i..i + j])
            && (if o.requiredExtensions != [] then One(RequiredOf(o.requiredExtensions)) else Some([]))
               == Some(es[i + j..i + j + k])
            && Traverse(BareOf, o.extraOids) == Some(es[i + j + k..i + j + k + l])
            && (if o.template.Some? then One(RequestOf(o.template.value)) else Some([])) == Some(es[i + j + k + l..])
  {
    hide BareOf, KeyOf, RequiredOf, RequestOf, Traverse, KeySays, RequiredSays, BareSays, TemplateSays, One;
    var n := i + j + k;
    ChallengeIs();
    OnePart(o.challengePassword, BareOf(CHALLENGE_PASSWORD_OID), es[..i]);
    if o.keyAlgorithm.Some? {
      OnePart(true, KeyOf(o.keyAlgorithm.value), es[i..i + j]);
      KeyExactly(o.keyAlgorithm.value, es[i]);
    }
    if o.requiredExtensions != [] {
      OnePart(true, RequiredOf(o.requiredExtensions), es[i + j..n]);
      RequiredExactly(o.requiredExtensions, es[i + j]);
    }
    ExtraExactly(o.extraOids, es[n..n + l]);
    var mid := es[n..n + l];
    assert forall m :: 0 <= m < l ==> mid[m] == es[n + m];
    assert es[i..i] == [] && es[i + j..i + j] == [];
    var tail := es[n + l..];
    assert tail == [] <==> |es| == n + l;
    if o.template.Some? {
      OnePart(true, RequestOf(o.template.value), tail);
      if |es| == n + l + 1 {
        assert tail[0] == es[n + l];
        RequestExactly(o.template.value, es[n + l]);
      }
    }
  }
}
