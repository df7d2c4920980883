/** When encoding options fails, and what a strict reader recovers when it does not. */
module CsrAttrsProperties {
  import opened Common
  import opened Der
  import opened Oid
  import opened Builder
  import opened TreeWriter
  import opened CsrGrammar
  import opened Text
  import opened CsrAttrs
  import opened CsrDenotation
  import opened Spelling

  // -- Shapes ---------------------------------------------------------------------------

  lemma KidsShaped(t: Tree)
    requires t.Cons? && LowTag(t.tag) && Constructed(t.tag)
    requires forall i :: 0 <= i < |t.kids| ==> Shaped(t.kids[i])
    ensures Shaped(t)
  {
  }

  lemma OidShaped(oid: Arcs)
    ensures Shaped(OidTree(oid))
  {
  }

  lemma AttributeShaped(oid: Arcs, values: seq<Tree>)
    requires forall i :: 0 <= i < |values| ==> Shaped(values[i])
    ensures Shaped(AttributeTree(oid, values))
  {
    hide OidTree;
    OidShaped(oid);
    KidsShaped(Cons(SET, values));
    KidsShaped(AttributeTree(oid, values));
  }

  lemma NameShaped(n: Name)
    ensures Shaped(NameTree(n))
  {
    hide OidTree;
    OidShaped(n.oid);
    var inner := NameTree(n).kids[0];
    KidsShaped(inner);
    KidsShaped(NameTree(n));
  }

  lemma KeyTypeShaped(k: KeyType)
    ensures Shaped(KeyTypeTree(k))
  {
    hide OidTree;
    OidShaped(k.oid);
    if k.curve.Some? {
      OidShaped(k.curve.value);
    }
    var inner := KeyTypeTree(k).kids[0];
    KidsShaped(inner);
    KidsShaped(KeyTypeTree(k));
  }

  lemma AttributesShaped(exts: seq<Ext>)
    ensures Shaped(AttributesTree(exts))
  {
    hide AttributeTree, ExtsTree, IdExtensionReq, IdExtensionReqTemplate;
    ExtsShaped(exts);
    AttributeShaped(IdExtensionReq(), [ExtsTree(exts)]);
    AttributeShaped(IdExtensionReqTemplate(), [ExtsTree(exts)]);
    KidsShaped(AttributesTree(exts));
  }

  lemma TemplateShaped(t: RequestTemplate)
    ensures Shaped(TemplateTree(t))
  {
    hide AttributesTree, NameTree, KeyTypeTree, IntOctets;
    forall i | 0 <= i < |t.subject| ensures Shaped(NameTree(t.subject[i])) {
      NameShaped(t.subject[i]);
    }
    var names := Cons(SEQUENCE, Map(NameTree, t.subject));
    KidsShaped(names);
    if t.key.Some? {
      KeyTypeShaped(t.key.value);
    }
    AttributesShaped(t.exts);
    KidsShaped(TemplateTree(t));
  }

  lemma EntryShaped(e: Entry)
    ensures Shaped(EntryTree(e))
  {
    hide AttributeTree, OidTree, TemplateTree, ExtsTree, IntOctets, IdExtensionReq, IdRequestTemplate;
    match e
    case Bare(oid) => OidShaped(oid);
    case Key(oid, param) =>
      if param.Curve? {
        OidShaped(param.curve);
      }
      AttributeShaped(oid, ParamTrees(param));
    case Extensions(exts) =>
      ExtsShaped(exts);
      AttributeShaped(IdExtensionReq(), [ExtsTree(exts)]);
    case Template(t) =>
      TemplateShaped(t);
      AttributeShaped(IdRequestTemplate(), [TemplateTree(t)]);
  }

  function ResponseTree(entries: seq<Entry>): Tree {
    Cons(SEQUENCE, Map(EntryTree, entries))
  }

  lemma ResponseShaped(entries: seq<Entry>)
    ensures Shaped(ResponseTree(entries))
  {
    hide EntryTree;
    forall i | 0 <= i < |entries| ensures Shaped(EntryTree(entries[i])) {
      EntryShaped(entries[i]);
    }
    KidsShaped(ResponseTree(entries));
  }

  /** The response is the tree of the entries, if they exist and fit. */
  lemma ResponseIs(o: Options)
    requires o.Valid() && !o.IsEmpty()
    ensures EncodedOptions(o)
         == if EntriesOf(o).None? || |Content(ResponseTree(EntriesOf(o).value))| > MAX_CONTENT then Failed
            else Response(Encode(ResponseTree(EntriesOf(o).value)))
  {
    hide EntriesOf, EntryTree;
    if EntriesOf(o).Some? {
      ResponseShaped(EntriesOf(o).value);
      TreeWireIs(ResponseTree(EntriesOf(o).value));
    }
  }

  // -- Failure ----------------------------------------------------------------------------

  ghost predicate ExtSpelled(oid: string, valueHex: string) {
    SpellsMarshalIdentifier(oid) && HexString(valueHex)
  }

  ghost predicate BlankableExtSpelled(e: TemplateExtension) {
    SpellsIdentifier(e.oid) && (e.valueHex.Some? ==> HexString(e.valueHex.value))
  }

  ghost predicate KeySpelled(ka: KeyAlgorithm) {
    SpellsIdentifier(ka.oid) && (ka.curveOid != "" ==> SpellsIdentifier(ka.curveOid))
  }

  ghost predicate TemplateSpelled(t: CsrTemplate) {
    && (forall i :: 0 <= i < |t.subject| ==> SpellsIdentifier(t.subject[i].oid))
    && (t.keyType.Some? ==> KeySpelled(t.keyType.value))
    && var exts := t.extensions;
       if forall i :: 0 <= i < |exts| ==> exts[i].valueHex.Some? then
         forall i :: 0 <= i < |exts| ==> ExtSpelled(exts[i].oid, exts[i].valueHex.value)
       else
         forall i :: 0 <= i < |exts| ==> BlankableExtSpelled(exts[i])
  }

  /** Every identifier and every hexadecimal string the options reach is well formed, on its characters. */
  ghost predicate Spelled(o: Options) {
    && (o.keyAlgorithm.Some? ==> KeySpelled(o.keyAlgorithm.value))
    && (forall i :: 0 <= i < |o.requiredExtensions| ==>
          ExtSpelled(o.requiredExtensions[i].oid, o.requiredExtensions[i].valueHex))
    && (forall i :: 0 <= i < |o.extraOids| ==> SpellsIdentifier(o.extraOids[i]))
    && (o.template.Some? ==> TemplateSpelled(o.template.value))
  }

  lemma ExtSpelledExactly(e: Extension)
    ensures ExtOf(e).Some? <==> ExtSpelled(e.oid, e.valueHex)
  {
    hide MarshalOidOf, HexDecode, SpellsMarshalIdentifier, HexString;
    OidSpelledExactly(e.oid);
    HexStringExactly(e.valueHex);
  }

  lemma BlankableExtSpelledExactly(e: TemplateExtension)
    ensures BlankableExtOf(e).Some? <==> BlankableExtSpelled(e)
  {
    hide OidOf, HexDecode, SpellsIdentifier, HexString;
    OidSpelledExactly(e.oid);
    if e.valueHex.Some? {
      HexStringExactly(e.valueHex.value);
    }
  }

  lemma KeySpelledExactly(ka: KeyAlgorithm)
    ensures KeyOf(ka).Some? <==> KeySpelled(ka)
    ensures KeyTypeOf(ka).Some? <==> KeySpelled(ka)
  {
    hide OidOf, SpellsIdentifier;
    OidSpelledExactly(ka.oid);
    OidSpelledExactly(ka.curveOid);
  }

  lemma TemplateExtsSpelledExactly(exts: seq<TemplateExtension>)
    ensures TemplateExtsOf(exts).Some? <==>
              if forall i :: 0 <= i < |exts| ==> exts[i].valueHex.Some? then
                forall i :: 0 <= i < |exts| ==> ExtSpelled(exts[i].oid, exts[i].valueHex.value)
              else
                forall i :: 0 <= i < |exts| ==> BlankableExtSpelled(exts[i])
  {
    hide ExtOf, BlankableExtOf, ExtSpelled, BlankableExtSpelled;
    if AllPresent(exts) {
      var full := Full(exts);
      forall i | 0 <= i < |full| ensures ExtOf(full[i]).Some? <==> ExtSpelled(exts[i].oid, exts[i].valueHex.value) {
        ExtSpelledExactly(full[i]);
      }
    } else {
      forall i | 0 <= i < |exts| ensures BlankableExtOf(exts[i]).Some? <==> BlankableExtSpelled(exts[i]) {
        BlankableExtSpelledExactly(exts[i]);
      }
    }
  }

  lemma TemplateSpelledExactly(t: CsrTemplate)
    ensures TemplateOf(t).Some? <==> TemplateSpelled(t)
  {
    hide OidOf, TemplateExtsOf, KeyTypeOf, KeySpelled, ExtSpelled, BlankableExtSpelled, SpellsIdentifier;
    forall i | 0 <= i < |t.subject| ensures NameOf(t.subject[i]).Some? <==> SpellsIdentifier(t.subject[i].oid) {
      OidSpelledExactly(t.subject[i].oid);
    }
    TemplateExtsSpelledExactly(t.extensions);
    if t.keyType.Some? {
      KeySpelledExactly(t.keyType.value);
    }
  }

  lemma EntriesSpelledExactly(o: Options)
    ensures EntriesOf(o).Some? <==> Spelled(o)
  {
    hide OidOf, ExtOf, KeyOf, TemplateOf, TemplateSpelled, ExtSpelled, KeySpelled, SpellsIdentifier;
    assert OidOf(CHALLENGE_PASSWORD_OID).Some? by {
      KnownStrings();
    }
    var exts, oids := o.requiredExtensions, o.extraOids;
    forall i | 0 <= i < |exts| ensures ExtOf(exts[i]).Some? <==> ExtSpelled(exts[i].oid, exts[i].valueHex) {
      ExtSpelledExactly(exts[i]);
    }
    forall i | 0 <= i < |oids| ensures BareOf(oids[i]).Some? <==> SpellsIdentifier(oids[i]) {
      OidSpelledExactly(oids[i]);
    }
    if o.keyAlgorithm.Some? {
      KeySpelledExactly(o.keyAlgorithm.value);
    }
    if o.template.Some? {
      TemplateSpelledExactly(o.template.value);
    }
  }

  /** The entries are there, but too long to be written. */
  ghost predicate TooLong(o: Options) {
    exists entries: seq<Entry> :: Denotes(o, entries) && |Content(ResponseTree(entries))| > 0xffff_fffe
  }

  /** Two ways to say the same that contradict each other, or a template key that is not a curve. */
  predicate Inexpressible(o: Options) {
    || (o.keyAlgorithm.Some? && o.keyAlgorithm.value.curveOid != "" && o.keyAlgorithm.value.rsaModulusBits != 0)
    || (o.template.Some? && o.template.value.keyType.Some?
        && (o.template.value.keyType.value.rsaModulusBits != 0 || o.template.value.keyType.value.curveOid == ""))
  }

  /** Nothing at all is asked for. */
  predicate AsksNothing(o: Options) {
    && o.challengePassword == false && o.keyAlgorithm == None && |o.requiredExtensions| == 0
    && |o.extraOids| == 0 && o.template == None
  }

  lemma TooLongExactly(o: Options)
    ensures TooLong(o) <==> EntriesOf(o).Some? && |Content(ResponseTree(EntriesOf(o).value))| > MAX_CONTENT
  {
    hide EntriesOf, Denotes, ResponseTree, Content;
    forall entries: seq<Entry> ensures Denotes(o, entries) <==> EntriesOf(o) == Some(entries) {
      EntriesDenoted(o, entries);
    }
  }

  /** Encode fails for an inexpressible combination, a malformed string or an over-long result, and for nothing else. */
  lemma EncodeFailsExactly(o: Options)
    ensures EncodedOptions(o) == Failed <==> Inexpressible(o) || !Spelled(o) || TooLong(o)
  {
    hide EntriesOf, Spelled, TooLong, ResponseTree, Elem, Lift, EntriesForest, Encode, Content;
    EntriesSpelledExactly(o);
    TooLongExactly(o);
    if o.Valid() && !o.IsEmpty() {
      ResponseIs(o);
    } else if o.IsEmpty() {
      NothingIsShort(o);
    }
  }

  lemma NothingIsShort(o: Options)
    requires o.IsEmpty()
    ensures EntriesOf(o) == Some([]) && |Content(ResponseTree([]))| == 0
  {
    hide EntriesOf;
    EntriesDenoted(o, []);
    assert ResponseTree([]).kids == [];
  }

  /** There is no content exactly when nothing is asked for. */
  lemma NoContentExactly(o: Options)
    ensures EncodedOptions(o) == NoContent <==> AsksNothing(o)
  {
    hide EntriesOf, Elem, Lift, EntriesForest;
  }

  /** A response is the encoding of the entries the options denote, and nothing else. */
  lemma ResponseDenotes(o: Options, der: bytes)
    ensures EncodedOptions(o) == Response(der) <==>
            && !Inexpressible(o) && !AsksNothing(o)
            && exists entries: seq<Entry> ::
                 && Denotes(o, entries)
                 && |Content(ResponseTree(entries))| <= 0xffff_fffe && der == Encode(ResponseTree(entries))
  {
    hide EntriesOf, Denotes, ResponseTree, Elem, Lift, EntriesForest, Encode, Content;
    forall entries: seq<Entry> ensures Denotes(o, entries) <==> EntriesOf(o) == Some(entries) {
      EntriesDenoted(o, entries);
    }
    if o.Valid() && !o.IsEmpty() {
      ResponseIs(o);
    }
  }

  // -- Reading back --------------------------------------------------------------------------

  lemma OidWritable(dotted: string)
    ensures OidOf(dotted).Some? ==> Writable(OidOf(dotted).value)
    ensures MarshalOidOf(dotted).Some? ==> Writable(MarshalOidOf(dotted).value)
  {
    hide ParseOid;
    if ParseOid(dotted).Some? {
      ParsedArcs(dotted);
    }
  }

  lemma RequiredWritable(exts: seq<Extension>)
    requires Traverse(ExtOf, exts).Some?
    ensures AllExtOids(Traverse(ExtOf, exts).value, Writable) && AllValued(Traverse(ExtOf, exts).value)
    ensures |Traverse(ExtOf, exts).value| == |exts|
  {
    hide MarshalOidOf, Writable, HexDecode;
    forall i | 0 <= i < |exts| ensures Writable(ExtOf(exts[i]).value.oid) && ExtOf(exts[i]).value.value.Some? {
      assert ExtOf(exts[i]).Some?;
      OidWritable(exts[i].oid);
    }
  }

  lemma TemplateExtsWritable(exts: seq<TemplateExtension>)
    requires TemplateExtsOf(exts).Some?
    ensures AllExtOids(TemplateExtsOf(exts).value, Writable)
  {
    hide MarshalOidOf, OidOf, Writable, HexDecode;
    if AllPresent(exts) {
      RequiredWritable(Full(exts));
    } else {
      forall i | 0 <= i < |exts| ensures Writable(BlankableExtOf(exts[i]).value.oid) {
        assert BlankableExtOf(exts[i]).Some?;
        OidWritable(exts[i].oid);
      }
    }
  }

  lemma TemplateWritable(t: CsrTemplate)
    requires TemplateOf(t).Some?
    ensures AllOids(Template(TemplateOf(t).value), Writable)
  {
    hide OidOf, Writable, TemplateExtsOf, AllExtOids;
    forall i | 0 <= i < |t.subject| ensures Writable(NameOf(t.subject[i]).value.oid) {
      assert NameOf(t.subject[i]).Some?;
      OidWritable(t.subject[i].oid);
    }
    if t.keyType.Some? {
      OidWritable(t.keyType.value.oid);
      OidWritable(t.keyType.value.curveOid);
    }
    TemplateExtsWritable(t.extensions);
  }

  predicate AllWellFormed(es: Option<seq<Entry>>) {
    es.Some? ==> forall i :: 0 <= i < |es.value| ==> WellFormed(es.value[i])
  }

  lemma AppendWellFormed(f: Option<seq<Entry>>, g: Option<seq<Entry>>)
    requires AllWellFormed(f) && AllWellFormed(g)
    ensures AllWellFormed(Append(f, g))
  {
    hide WellFormed;
  }

  lemma OptionalWellFormed(wanted: bool, e: Option<Entry>)
    requires e.Some? ==> WellFormed(e.value)
    ensures AllWellFormed(if wanted then One(e) else Some([]))
  {
    hide WellFormed;
  }

  lemma BareWellFormed(dotted: string)
    ensures BareOf(dotted).Some? ==> WellFormed(BareOf(dotted).value)
  {
    hide OidOf, Writable;
    OidWritable(dotted);
  }

  lemma KeyWellFormed(ka: KeyAlgorithm)
    ensures KeyOf(ka).Some? ==> WellFormed(KeyOf(ka).value)
  {
    hide OidOf, Writable;
    OidWritable(ka.oid);
    OidWritable(ka.curveOid);
  }

  lemma RequiredWellFormed(exts: seq<Extension>)
    requires exts != []
    ensures RequiredOf(exts).Some? ==> WellFormed(RequiredOf(exts).value)
  {
    hide Traverse, Writable;
    if RequiredOf(exts).Some? {
      RequiredWritable(exts);
    }
  }

  lemma RequestWellFormed(t: CsrTemplate)
    ensures RequestOf(t).Some? ==> WellFormed(RequestOf(t).value)
  {
    hide TemplateOf, AllOids;
    if TemplateOf(t).Some? {
      TemplateWritable(t);
    }
  }

  lemma EntriesWellFormed(o: Options)
    ensures AllWellFormed(EntriesOf(o))
  {
    hide OidOf, TemplateOf, Writable, ExtOf, WellFormed, AllWellFormed, KeyOf, BareOf, RequiredOf, RequestOf, Append;
    var challenge := if o.challengePassword then One(BareOf(CHALLENGE_PASSWORD_OID)) else Some([]);
    var key := if o.keyAlgorithm.Some? then One(KeyOf(o.keyAlgorithm.value)) else Some([]);
    var required := if o.requiredExtensions != [] then One(RequiredOf(o.requiredExtensions)) else Some([]);
    var request := if o.template.Some? then One(RequestOf(o.template.value)) else Some([]);
    BareWellFormed(CHALLENGE_PASSWORD_OID);
    OptionalWellFormed(o.challengePassword, BareOf(CHALLENGE_PASSWORD_OID));
    OptionalWellFormed(false, None);
    if o.keyAlgorithm.Some? {
      KeyWellFormed(o.keyAlgorithm.value);
      OptionalWellFormed(true, KeyOf(o.keyAlgorithm.value));
    }
    if o.requiredExtensions != [] {
      RequiredWellFormed(o.requiredExtensions);
      OptionalWellFormed(true, RequiredOf(o.requiredExtensions));
    }
    ExtraWellFormed(o.extraOids);
    if o.template.Some? {
      RequestWellFormed(o.template.value);
      OptionalWellFormed(true, RequestOf(o.template.value));
    }
    AppendWellFormed(challenge, key);
    AppendWellFormed(Append(challenge, key), required);
    AppendWellFormed(Append(Append(challenge, key), required), Traverse(BareOf, o.extraOids));
    AppendWellFormed(Append(Append(Append(challenge, key), required), Traverse(BareOf, o.extraOids)), request);
  }

  lemma ExtraWellFormed(extraOids: seq<string>)
    ensures AllWellFormed(Traverse(BareOf, extraOids))
  {
    hide BareOf, WellFormed;
    if Traverse(BareOf, extraOids).Some? {
      forall i | 0 <= i < |extraOids| ensures WellFormed(BareOf(extraOids[i]).value) {
        assert BareOf(extraOids[i]).Some?;
        BareWellFormed(extraOids[i]);
      }
    }
  }

  /**
   A strict reader recovers from a response exactly the entries the options denote, in order,
   when and only when every identifier among them can be read back at all.
   */
  lemma ResponseReadBack(o: Options, der: bytes)
    requires EncodedOptions(o) == Response(der)
    ensures EntriesOf(o).Some?
    ensures ReadCsrAttrs(der) == EntriesOf(o) <==>
            forall i :: 0 <= i < |EntriesOf(o).value| ==> AllOids(EntriesOf(o).value[i], Readable)
  {
    hide EntriesOf, EntryTree, ReadEntry, WellFormed, AllOids;
    ResponseIs(o);
    var entries := EntriesOf(o).value;
    var tree := ResponseTree(entries);
    ResponseShaped(entries);
    TreeWireIs(tree);
    EncodeAllOne(tree);
    assert ProperAll([tree]) by {
      assert [tree][1..] == [];
    }
    ParseEncode([tree]);
    EntriesWellFormed(o);
    forall i | 0 <= i < |entries|
      ensures ReadEntry(EntryTree(entries[i])) == Some(entries[i]) <==> AllOids(entries[i], Readable)
    {
      EntryReadBack(entries[i]);
    }
    TraverseMap(ReadEntry, EntryTree, entries);
  }

  // -- The two ways to write extensions ----------------------------------------------------------

  predicate NoNegativeArc(dotted: string) {
    ParseOid(dotted).Some? ==> forall i :: 0 <= i < |ParseOid(dotted).value| ==> ParseOid(dotted).value[i] >= 0
  }

  /**
   When every value is present, writing the extensions one by one gives what marshalling them
   together gives, unless an arc is negative; then only marshalling accepts them.
   */
  lemma ExtensionFormsAgree(exts: seq<TemplateExtension>)
    requires AllPresent(exts)
    ensures Traverse(BlankableExtOf, exts)
         == if forall i :: 0 <= i < |exts| ==> NoNegativeArc(exts[i].oid) then Traverse(ExtOf, Full(exts)) else None
  {
    hide ParseOid, HexDecode;
    var full := Full(exts);
    forall i | 0 <= i < |exts|
      ensures BlankableExtOf(exts[i]) == if NoNegativeArc(exts[i].oid) then ExtOf(full[i]) else None
    {
    }
    if Traverse(BlankableExtOf, exts).Some? {
      assert forall i :: 0 <= i < |exts| ==> BlankableExtOf(exts[i]).Some?;
      assert forall i :: 0 <= i < |exts| ==> ExtOf(full[i]) == BlankableExtOf(exts[i]);
      assert Traverse(BlankableExtOf, exts).value == Traverse(ExtOf, full).value;
    } else if forall i :: 0 <= i < |exts| ==> NoNegativeArc(exts[i].oid) {
      var i :| 0 <= i < |exts| && BlankableExtOf(exts[i]).None?;
      assert ExtOf(full[i]).None?;
    }
  }

  /** Byte for byte: the SEQUENCE written one extension at a time is the one marshalled as a whole. */
  lemma ExtensionBytesAgree(exts: seq<TemplateExtension>)
    requires AllPresent(exts) && forall i :: 0 <= i < |exts| ==> NoNegativeArc(exts[i].oid)
    requires Traverse(ExtOf, Full(exts)).Some?
    ensures var der := Encode(ExtsTree(Traverse(ExtOf, Full(exts)).value));
            var one := ValueWire(ExtensionTemplatesValue(exts));
            one.Some? ==> one.value == der
    ensures Elem(SET, ValueWire(ExtensionTemplatesValue(exts)))
         == Elem(SET, ValueWire(DerValue(Encode(ExtsTree(Traverse(ExtOf, Full(exts)).value)))))
  {
    hide BlankableExtOf, ExtOf, NoNegativeArc, ExtsTree, Encode, Elem;
    ExtensionFormsAgree(exts);
    var tree := ExtsTree(Traverse(ExtOf, Full(exts)).value);
    ExtsShaped(Traverse(ExtOf, Full(exts)).value);
    RawInside(SET, tree);
    LiftTree(tree);
    TreeWireIs(tree);
  }
}
