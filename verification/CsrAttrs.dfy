/**
 The CsrAttrs response: options, the entries they denote, the builder calls that write them,
 and what a reader gets back.
 */
module CsrAttrs {
  import opened Common
  import opened Der
  import opened Oid
  import opened Builder
  import opened TreeWriter
  import opened CsrGrammar
  import opened Text

  type GoInt = n: int | Int64(n) witness 0

  // -- Options ------------------------------------------------------------------------

  datatype KeyAlgorithm = KeyAlgorithm(oid: string, curveOid: string, rsaModulusBits: GoInt)

  datatype Extension = Extension(oid: string, critical: bool, valueHex: string)

  datatype Rdn = Rdn(oid: string, value: Option<bytes>)

  datatype TemplateExtension = TemplateExtension(oid: string, critical: bool, valueHex: Option<string>)

  datatype CsrTemplate = CsrTemplate(
    subject: seq<Rdn>, keyType: Option<KeyAlgorithm>, extensions: seq<TemplateExtension>)

  datatype Options = Options(
    challengePassword: bool,
    keyAlgorithm: Option<KeyAlgorithm>,
    requiredExtensions: seq<Extension>,
    extraOids: seq<string>,
    template: Option<CsrTemplate>)
  {
    predicate Valid() {
      && !(keyAlgorithm.Some? && keyAlgorithm.value.curveOid != "" && keyAlgorithm.value.rsaModulusBits != 0)
      && (template.Some? && template.value.keyType.Some? ==>
            template.value.keyType.value.rsaModulusBits == 0 && template.value.keyType.value.curveOid != "")
    }

    predicate IsEmpty() {
      && !challengePassword && keyAlgorithm.None? && requiredExtensions == []
      && extraOids == [] && template.None?
    }
  }

  const CHALLENGE_PASSWORD_OID := "1.2.840.113549.1.9.7"
  const EXTENSION_REQ_OID := "1.2.840.113549.1.9.14"
  const REQUEST_TEMPLATE_OID := "1.2.840.113549.1.9.16.2.61"
  const EXTENSION_REQ_TEMPLATE_OID := "1.2.840.113549.1.9.16.2.62"

  // -- What options denote ----------------------------------------------------------------

  /** An identifier the builder takes. */
  function OidOf(dotted: string): Option<Arcs> {
    var oid := ParseOid(dotted);
    if oid.Some? && BuilderAccepts(oid.value) then oid else None
  }

  /** An identifier encoding/asn1 takes. */
  function MarshalOidOf(dotted: string): Option<Arcs> {
    var oid := ParseOid(dotted);
    if oid.Some? && MarshalAccepts(oid.value) then oid else None
  }

  function ExtOf(e: Extension): Option<Ext> {
    match (MarshalOidOf(e.oid), HexDecode(e.valueHex))
    case (Some(oid), Some(value)) => Some(Ext(oid, e.critical, Some(value)))
    case _ => None
  }

  function BlankableExtOf(e: TemplateExtension): Option<Ext> {
    match (OidOf(e.oid), e.valueHex)
    case (Some(oid), None) => Some(Ext(oid, e.critical, None))
    case (Some(oid), Some(hex)) =>
      (match HexDecode(hex) case Some(value) => Some(Ext(oid, e.critical, Some(value))) case None => None)
    case _ => None
  }

  predicate AllPresent(exts: seq<TemplateExtension>) {
    forall i :: 0 <= i < |exts| ==> exts[i].valueHex.Some?
  }

  function Full(exts: seq<TemplateExtension>): seq<Extension>
    requires AllPresent(exts)
  {
    seq(|exts|, i requires 0 <= i < |exts| => Extension(exts[i].oid, exts[i].critical, exts[i].valueHex.value))
  }

  function TemplateExtsOf(exts: seq<TemplateExtension>): Option<seq<Ext>> {
    if AllPresent(exts) then Traverse(ExtOf, Full(exts)) else Traverse(BlankableExtOf, exts)
  }

  function NameOf(rdn: Rdn): Option<Name> {
    match OidOf(rdn.oid) case Some(oid) => Some(Name(oid, rdn.value)) case None => None
  }

  function KeyTypeOf(ka: KeyAlgorithm): Option<KeyType> {
    match (OidOf(ka.oid), OidOf(ka.curveOid))
    case (Some(oid), curve) =>
      if ka.curveOid == "" then Some(KeyType(oid, None))
      else if curve.None? then None
      else Some(KeyType(oid, curve))
    case _ => None
  }

  function TemplateOf(t: CsrTemplate): Option<RequestTemplate> {
    var key := if t.keyType.Some? then KeyTypeOf(t.keyType.value) else None;
    match (Traverse(NameOf, t.subject), TemplateExtsOf(t.extensions))
    case (Some(subject), Some(exts)) =>
      if t.keyType.Some? && key.None? then None else Some(RequestTemplate(subject, key, exts))
    case _ => None
  }

  function BareOf(dotted: string): Option<Entry> {
    match OidOf(dotted) case Some(oid) => Some(Bare(oid)) case None => None
  }

  function KeyOf(ka: KeyAlgorithm): Option<Entry> {
    match (OidOf(ka.oid), OidOf(ka.curveOid))
    case (Some(oid), curve) =>
      if ka.curveOid != "" then (if curve.Some? then Some(Key(oid, Curve(curve.value))) else None)
      else if ka.rsaModulusBits != 0 then Some(Key(oid, Bits(ka.rsaModulusBits)))
      else Some(Key(oid, Absent))
    case _ => None
  }

  function RequiredOf(exts: seq<Extension>): Option<Entry> {
    match Traverse(ExtOf, exts) case Some(es) => Some(Extensions(es)) case None => None
  }

  function RequestOf(t: CsrTemplate): Option<Entry> {
    match TemplateOf(t) case Some(rt) => Some(Template(rt)) case None => None
  }

  /** The ordered list of entries, or none if some identifier or hexadecimal string is malformed. */
  function EntriesOf(o: Options): Option<seq<Entry>> {
    Append(Append(Append(Append(
      if o.challengePassword then One(BareOf(CHALLENGE_PASSWORD_OID)) else Some([]),
      if o.keyAlgorithm.Some? then One(KeyOf(o.keyAlgorithm.value)) else Some([])),
      if o.requiredExtensions != [] then One(RequiredOf(o.requiredExtensions)) else Some([])),
      Traverse(BareOf, o.extraOids)),
      if o.template.Some? then One(RequestOf(o.template.value)) else Some([]))
  }

  /** The tree of something, if there is something. */
  function TreeOf<A>(tree: A -> Tree, a: Option<A>): Forest {
    if a.None? then None else Some([tree(a.value)])
  }

  function EntriesForest(es: Option<seq<Entry>>): Forest {
    if es.None? then None else Some(Map(EntryTree, es.value))
  }

  // -- Writing -----------------------------------------------------------------------------

  // The continuation that writes an attribute's single value.
  datatype Value =
    | NoValue
    | OidValue(dotted: string)
    | BitsValue(bits: int)
    | DerValue(der: bytes)
    | TemplateValue(template: CsrTemplate)
    | ExtensionTemplatesValue(exts: seq<TemplateExtension>)

  function ValueWire(v: Value): Wire {
    match v
    case NoValue => Some([])
    case OidValue(dotted) => OidWireOf(dotted)
    case BitsValue(bits) => IntWire(bits)
    case DerValue(der) => Some(der)
    case TemplateValue(t) => Lift(TreeOf(TemplateTree, TemplateOf(t)))
    case ExtensionTemplatesValue(exts) => Lift(TreeOf(ExtsTree, Traverse(BlankableExtOf, exts)))
  }

  function AttributeWire(oid: Option<Arcs>, value: Wire): Wire {
    Elem(SEQUENCE, Cat(Lift(TreeOf(OidTree, oid)), Elem(SET, value)))
  }

  function Rank(v: Value): nat {
    if v.TemplateValue? then 1 else 0
  }

  method AddOid(b: Builder, dotted: string)
    modifies b
    ensures b.Out() == Cat(old(b.Out()), OidWireOf(dotted))
  {
    var oid := ParseOidLoop(dotted);
    OidWireIs(dotted);
    if oid.None? {
      b.SetError();
    } else {
      b.AddObjectIdentifier(oid.value);
    }
  }

  function OidWireOf(dotted: string): Wire {
    Lift(TreeOf(OidTree, OidOf(dotted)))
  }

  lemma OidWireIs(dotted: string)
    ensures OidWireOf(dotted) == match ParseOid(dotted) case Some(oid) => OidWire(oid) case None => None
  {
    if OidOf(dotted).Some? {
      LiftTree(OidTree(OidOf(dotted).value));
    }
  }

  method AddAttribute(b: Builder, dotted: string, value: Value)
    modifies b
    ensures b.Out() == Cat(old(b.Out()), AttributeWire(OidOf(dotted), ValueWire(value)))
    decreases Rank(value), 1
  {
    ghost var oid, set_ := OidWireOf(dotted), Elem(SET, ValueWire(value));
    assert AttributeWire(OidOf(dotted), ValueWire(value)) == Elem(SEQUENCE, Cat(oid, set_));
    hide AttributeWire, ValueWire, OidWireOf, Elem, Cat, Opened;
    ghost var before := b.Out();
    var attribute := b.Open(SEQUENCE);
    ghost var start := b.Out();
    AddOid(b, dotted);
    ghost var beforeSet := b.Out();
    var values := b.Open(SET);
    AddValue(b, value);
    b.Close(values, beforeSet, SET, ValueWire(value));
    CatAssoc(start, oid, set_);
    b.Close(attribute, before, SEQUENCE, Cat(oid, set_));
  }

  method AddValue(b: Builder, value: Value)
    modifies b
    ensures b.Out() == Cat(old(b.Out()), ValueWire(value))
    decreases Rank(value), 0
  {
    hide OidWireOf, IntWire, Cat, Lift, TreeOf, TemplateOf, TreeOf, Traverse;
    match value {
      case NoValue => CatEmpty(b.Out());
      case OidValue(dotted) => AddOid(b, dotted);
      case BitsValue(bits) => b.AddInt64(bits);
      case DerValue(der) => b.AddBytes(der);
      case TemplateValue(t) => AddTemplate(b, t);
      case ExtensionTemplatesValue(exts) => AddExtensionTemplates(b, exts);
    }
  }

  method AddKeyAlgorithmAttribute(b: Builder, ka: KeyAlgorithm)
    modifies b
    ensures b.Out() == Cat(old(b.Out()), Lift(TreeOf(EntryTree, KeyOf(ka))))
  {
    KeyLift(ka);
    hide AttributeWire, ValueWire, Cat, Lift, TreeOf, KeyOf, OidOf;
    if ka.curveOid != "" {
      AddAttribute(b, ka.oid, OidValue(ka.curveOid));
    } else if ka.rsaModulusBits != 0 {
      AddAttribute(b, ka.oid, BitsValue(ka.rsaModulusBits));
    } else {
      AddAttribute(b, ka.oid, NoValue);
    }
  }

  function KeyValue(ka: KeyAlgorithm): Value {
    if ka.curveOid != "" then OidValue(ka.curveOid)
    else if ka.rsaModulusBits != 0 then BitsValue(ka.rsaModulusBits)
    else NoValue
  }

  lemma KeyLift(ka: KeyAlgorithm)
    ensures AttributeWire(OidOf(ka.oid), ValueWire(KeyValue(ka))) == Lift(TreeOf(EntryTree, KeyOf(ka)))
  {
    hide OidOf, AttributeWire, OidTree, TreeWire, AttributeTree, TreesWire, IntOctets;
    var bits: Tree := Prim(INTEGER, IntOctets(ka.rsaModulusBits));
    BitsLift(ka.rsaModulusBits);
    EmptyLift();
    AttributeLift(OidOf(ka.oid), TreeOf(OidTree, OidOf(ka.curveOid)));
    AttributeLift(OidOf(ka.oid), Some([bits]));
    AttributeLift(OidOf(ka.oid), Some([]));
  }

  lemma BitsLift(bits: int)
    ensures IntWire(bits) == Lift(Some([Prim(INTEGER, IntOctets(bits))]))
  {
    LiftTree(Prim(INTEGER, IntOctets(bits)));
  }

  lemma EmptyLift()
    ensures Lift(Some([])) == Some([])
  {
  }

  /** An attribute is an OID and a SET of what its value writes. */
  lemma AttributeLift(oid: Option<Arcs>, values: Forest)
    ensures AttributeWire(oid, Lift(values)) == Lift(AttributeForest(oid, values))
  {
    hide Elem, TreesWire, OidTree, Cat;
    LiftNode(SET, values);
    LiftAppend(TreeOf(OidTree, oid), Node(SET, values));
    LiftNode(SEQUENCE, Append(TreeOf(OidTree, oid), Node(SET, values)));
    if oid.Some? && values.Some? {
      assert [OidTree(oid.value)] + [Cons(SET, values.value)] == [OidTree(oid.value), Cons(SET, values.value)];
    }
  }

  function AttributeForest(oid: Option<Arcs>, values: Forest): Forest {
    if oid.None? || values.None? then None else Some([AttributeTree(oid.value, values.value)])
  }

  // -- Extensions with every value present, through encoding/asn1 -----------------------------

  /** asn1.Marshal on parsed extensions: checks each identifier, then encodes the SEQUENCE. */
  function Marshal(exts: seq<Ext>): Option<bytes> {
    if forall i :: 0 <= i < |exts| ==> MarshalAccepts(exts[i].oid) then Some(Encode(ExtsTree(exts))) else None
  }

  method MarshalExtensions(exts: seq<Extension>) returns (der: Option<bytes>)
    ensures der == match Traverse(ExtOf, exts) case Some(es) => Some(Encode(ExtsTree(es))) case None => None
  {
    hide ParseOid, HexDecode, MarshalAccepts, Encode, ExtsTree;
    var pkixExts: seq<Ext> := [];
    for i := 0 to |exts|
      invariant |pkixExts| == i
      invariant forall j :: 0 <= j < i ==> ParseOid(exts[j].oid) == Some(pkixExts[j].oid)
      invariant forall j :: 0 <= j < i ==>
        HexDecode(exts[j].valueHex) == pkixExts[j].value && pkixExts[j].value.Some?
      invariant forall j :: 0 <= j < i ==> pkixExts[j].critical == exts[j].critical
    {
      var oid := ParseOidLoop(exts[i].oid);
      if oid.None? {
        assert ExtOf(exts[i]).None?;
        return None;
      }
      var value := HexDecode(exts[i].valueHex);
      if value.None? {
        assert ExtOf(exts[i]).None?;
        return None;
      }
      pkixExts := pkixExts + [Ext(oid.value, exts[i].critical, value)];
    }
    der := Marshal(pkixExts);
    if der.Some? {
      assert forall j :: 0 <= j < |exts| ==> ExtOf(exts[j]) == Some(pkixExts[j]);
      assert Traverse(ExtOf, exts).value == pkixExts;
    } else {
      var j :| 0 <= j < |exts| && !MarshalAccepts(pkixExts[j].oid);
      assert ExtOf(exts[j]).None?;
    }
  }

  method AddExtensionReqAttribute(b: Builder, exts: seq<Extension>)
    modifies b
    ensures b.Out() == Cat(old(b.Out()), Lift(TreeOf(EntryTree, RequiredOf(exts))))
    decreases 0, 3
  {
    RequiredLift(exts);
    hide AttributeWire, ValueWire, Lift, TreeOf, RequiredOf, ExtOf, OidOf, ExtsTree, Encode, Traverse;
    var extsDer := MarshalExtensions(exts);
    if extsDer.None? {
      b.SetError();
    } else {
      AddAttribute(b, EXTENSION_REQ_OID, DerValue(extsDer.value));
    }
  }

  lemma RequiredLift(exts: seq<Extension>)
    ensures Lift(TreeOf(EntryTree, RequiredOf(exts)))
         == match Traverse(ExtOf, exts)
            case None => None
            case Some(es) => AttributeWire(OidOf(EXTENSION_REQ_OID), ValueWire(DerValue(Encode(ExtsTree(es)))))
  {
    hide ExtOf, OidOf, Elem, TreesWire, OidTree, Cat, Traverse, ExtsTree, Encode, AttributeTree, IdExtensionReq;
    KnownStrings();
    if Traverse(ExtOf, exts).Some? {
      var tree := ExtsTree(Traverse(ExtOf, exts).value);
      ExtsShaped(Traverse(ExtOf, exts).value);
      RawInside(SET, tree);
      AttributeLift(Some(IdExtensionReq()), Some([tree]));
    }
  }

  // -- Extensions whose value may be blank ------------------------------------------------------

  method AddExtensionTemplate(b: Builder, e: TemplateExtension)
    modifies b
    ensures b.Out() == Cat(old(b.Out()), Lift(TreeOf(ExtTree, BlankableExtOf(e))))
  {
    ExtKidsAre(e);
    hide BlankableExtOf, TreeOf, Lift, OidWireOf, HexDecode, Elem, Cat, Opened, ExtKids, OidOf;
    ghost var before := b.Out();
    var mark := b.Open(SEQUENCE);
    ghost var start, oid := b.Out(), OidWireOf(e.oid);
    AddOid(b, e.oid);
    if e.critical {
      b.AddBooleanTrue();
    } else {
      CatEmpty(b.Out());
    }
    ghost var critical := CriticalWire(e.critical);
    if e.valueHex.Some? {
      var value := HexDecode(e.valueHex.value);
      if value.None? {
        b.SetError();
        NoneLast(Cat(Cat(start, oid), critical));
      } else {
        b.AddOctetString(value.value);
      }
    } else {
      CatEmpty(b.Out());
    }
    CatAssoc(start, oid, critical);
    CatAssoc(start, Cat(oid, critical), ExtValueWire(e.valueHex));
    b.Close(mark, before, SEQUENCE, Cat(Cat(oid, critical), ExtValueWire(e.valueHex)));
  }

  lemma NoneLast(a: Wire)
    ensures Cat(a, None) == None
  {
  }

  function CriticalWire(critical: bool): Wire {
    if critical then TrueWire() else Some([])
  }

  function ExtValueWire(valueHex: Option<string>): Wire {
    match valueHex
    case None => Some([])
    case Some(hex) => (match HexDecode(hex) case Some(value) => Elem(OCTET_STRING, Some(value)) case None => None)
  }

  function ExtKids(e: TemplateExtension): Wire {
    Cat(Cat(OidWireOf(e.oid), CriticalWire(e.critical)), ExtValueWire(e.valueHex))
  }

  lemma ExtKidsAre(e: TemplateExtension)
    ensures Elem(SEQUENCE, ExtKids(e)) == Lift(TreeOf(ExtTree, BlankableExtOf(e)))
    ensures ExtKids(e) == Cat(Cat(OidWireOf(e.oid), CriticalWire(e.critical)), ExtValueWire(e.valueHex))
  {
    hide OidOf, HexDecode, Elem, Cat, OidTree, TreesWire;
    var critical: Forest := Some(if e.critical then [Prim(BOOLEAN, [0xff])] else []);
    CriticalLift(e.critical);
    var value: Forest := match e.valueHex
      case None => Some([])
      case Some(hex) => (match HexDecode(hex) case Some(v) => Some([Prim(OCTET_STRING, v)]) case None => None);
    ExtValueLift(e.valueHex);
    LiftAppend(TreeOf(OidTree, OidOf(e.oid)), critical);
    LiftAppend(Append(TreeOf(OidTree, OidOf(e.oid)), critical), value);
    LiftNode(SEQUENCE, Append(Append(TreeOf(OidTree, OidOf(e.oid)), critical), value));
  }

  lemma CriticalLift(critical: bool)
    ensures CriticalWire(critical) == Lift(Some(if critical then [Prim(BOOLEAN, [0xff])] else []))
  {
    LiftTree(Prim(BOOLEAN, [0xff]));
  }

  lemma ExtValueLift(valueHex: Option<string>)
    ensures ExtValueWire(valueHex)
         == Lift(match valueHex
                 case None => Some([])
                 case Some(hex) =>
                   (match HexDecode(hex) case Some(v) => Some([Prim(OCTET_STRING, v)]) case None => None))
  {
    if valueHex.Some? && HexDecode(valueHex.value).Some? {
      LiftTree(Prim(OCTET_STRING, HexDecode(valueHex.value).value));
    }
  }

  method AddExtensionTemplates(b: Builder, exts: seq<TemplateExtension>)
    modifies b
    ensures b.Out() == Cat(old(b.Out()), Lift(TreeOf(ExtsTree, Traverse(BlankableExtOf, exts))))
    decreases 0, 0
  {
    TreesNode(exts);
    hide BlankableExtOf, ExtTree, TreeOf, Lift, Elem, Cat, Opened, Trees, Node, ExtsTree;
    ghost var before := b.Out();
    var mark := b.Open(SEQUENCE);
    ghost var start := b.Out();
    TreesNil(BlankableExtOf, ExtTree, start);
    for i := 0 to |exts|
      invariant b.Out() == Cat(start, Lift(Trees(BlankableExtOf, ExtTree, exts[..i])))
    {
      AddExtensionTemplate(b, exts[i]);
      TreesStep(BlankableExtOf, ExtTree, exts[..i], exts[i], start);
      assert exts[..i + 1] == exts[..i] + [exts[i]];
    }
    assert exts[..|exts|] == exts;
    b.Close(mark, before, SEQUENCE, Lift(Trees(BlankableExtOf, ExtTree, exts)));
    LiftNode(SEQUENCE, Trees(BlankableExtOf, ExtTree, exts));
  }

  lemma TreesNode(exts: seq<TemplateExtension>)
    ensures Node(SEQUENCE, Trees(BlankableExtOf, ExtTree, exts)) == TreeOf(ExtsTree, Traverse(BlankableExtOf, exts))
  {
    hide BlankableExtOf, ExtTree;
  }

  function Trees<A, B>(f: A -> Option<B>, tree: B -> Tree, xs: seq<A>): Forest {
    match Traverse(f, xs) case Some(ys) => Some(Map(tree, ys)) case None => None
  }

  lemma TreesSnoc<A, B>(f: A -> Option<B>, tree: B -> Tree, xs: seq<A>, x: A)
    ensures Trees(f, tree, xs + [x]) == Append(Trees(f, tree, xs), TreeOf(tree, f(x)))
  {
    var all := xs + [x];
    assert all[|xs|] == x && forall i :: 0 <= i < |xs| ==> all[i] == xs[i];
    if Traverse(f, all).Some? {
      assert Trees(f, tree, all).value == Trees(f, tree, xs).value + [tree(f(x).value)];
    }
  }

  /** One more item written after those of xs. */
  lemma TreesStep<A, B>(f: A -> Option<B>, tree: B -> Tree, xs: seq<A>, x: A, start: Wire)
    ensures Cat(Cat(start, Lift(Trees(f, tree, xs))), Lift(TreeOf(tree, f(x))))
            == Cat(start, Lift(Trees(f, tree, xs + [x])))
  {
    hide Trees, Lift, Cat, TreeOf;
    TreesSnoc(f, tree, xs, x);
    Extend(start, Trees(f, tree, xs), TreeOf(tree, f(x)));
  }

  lemma TreesNil<A, B>(f: A -> Option<B>, tree: B -> Tree, start: Wire)
    ensures Cat(start, Lift(Trees(f, tree, []))) == start
  {
    CatEmpty(start);
    assert Trees(f, tree, []).value == [];
  }

  method AddExtensionReqTemplateAttribute(b: Builder, exts: seq<TemplateExtension>)
    modifies b
    ensures b.Out() == Cat(old(b.Out()), Lift(BlankAttributeForest(exts)))
    decreases 0, 3
  {
    BlankAttributeLift(exts);
    hide AttributeWire, ValueWire, Lift, Cat, BlankAttributeForest, OidOf;
    AddAttribute(b, EXTENSION_REQ_TEMPLATE_OID, ExtensionTemplatesValue(exts));
  }

  lemma BlankAttributeLift(exts: seq<TemplateExtension>)
    ensures AttributeWire(OidOf(EXTENSION_REQ_TEMPLATE_OID), ValueWire(ExtensionTemplatesValue(exts)))
         == Lift(BlankAttributeForest(exts))
  {
    hide OidOf, AttributeWire, Lift, Traverse, ExtsTree, AttributeTree, IdExtensionReqTemplate;
    KnownStrings();
    AttributeLift(Some(IdExtensionReqTemplate()), TreeOf(ExtsTree, Traverse(BlankableExtOf, exts)));
  }

  function BlankAttributeForest(exts: seq<TemplateExtension>): Forest {
    match Traverse(BlankableExtOf, exts)
    case Some(es) => Some([AttributeTree(IdExtensionReqTemplate(), [ExtsTree(es)])])
    case None => None
  }

  // -- The template ---------------------------------------------------------------------------

  method AddTemplateAttributes(b: Builder, exts: seq<TemplateExtension>)
    modifies b
    ensures b.Out() == Cat(old(b.Out()), Lift(TreeOf(AttributesTree, TemplateExtsOf(exts))))
    decreases 0, 4
  {
    AttributesAre(exts);
    hide Lift, Cat, Opened, Elem, TreeOf, TemplateExtsOf, BlankAttributeForest, RequiredOf, AttributesTree, Node,
         EntryTree;
    ghost var before := b.Out();
    var mark := b.Open(CONTEXT1);
    if |exts| == 0 {
      CatEmpty(b.Out());
      EmptyLift();
      b.Close(mark, before, CONTEXT1, Some([]));
      LiftNode(CONTEXT1, Some([]));
      return;
    }
    var allPresent := true;
    for i := 0 to |exts|
      invariant allPresent
      invariant forall j :: 0 <= j < i ==> exts[j].valueHex.Some?
    {
      if exts[i].valueHex.None? {
        allPresent := false;
        break;
      }
    }
    ghost var values: Forest;
    if allPresent {
      AddExtensionReqAttribute(b, Full(exts));
      values := TreeOf(EntryTree, RequiredOf(Full(exts)));
    } else {
      AddExtensionReqTemplateAttribute(b, exts);
      values := BlankAttributeForest(exts);
    }
    b.Close(mark, before, CONTEXT1, Lift(values));
    LiftNode(CONTEXT1, values);
  }

  lemma AttributesAre(exts: seq<TemplateExtension>)
    ensures TreeOf(AttributesTree, TemplateExtsOf(exts))
         == Node(CONTEXT1,
                 if exts == [] then Some([])
                 else if AllPresent(exts) then TreeOf(EntryTree, RequiredOf(Full(exts)))
                 else BlankAttributeForest(exts))
  {
    hide ExtOf, BlankableExtOf, AttributeTree, ExtsTree;
    if exts == [] {
      assert Traverse(ExtOf, Full(exts)).value == [];
    } else if TemplateExtsOf(exts).Some? {
      TemplateExtsValued(exts);
    }
  }

  /** Values are all present in what the extensions denote exactly when they all are in the options. */
  lemma TemplateExtsValued(exts: seq<TemplateExtension>)
    requires TemplateExtsOf(exts).Some?
    ensures |TemplateExtsOf(exts).value| == |exts| && (AllValued(TemplateExtsOf(exts).value) <==> AllPresent(exts))
  {
    hide OidOf, MarshalOidOf, HexDecode;
    var es := TemplateExtsOf(exts).value;
    if !AllPresent(exts) {
      var i :| 0 <= i < |exts| && exts[i].valueHex.None?;
      assert es[i].value.None?;
    }
  }

  method AddSubjectTemplate(b: Builder, rdns: seq<Rdn>)
    modifies b
    ensures b.Out() == Cat(old(b.Out()), Lift(Node(SEQUENCE, Trees(NameOf, NameTree, rdns))))
  {
    hide NameOf, NameTree, TreeOf, Lift, Elem, Cat, Opened, Trees, Node;
    ghost var before := b.Out();
    var mark := b.Open(SEQUENCE);
    ghost var start := b.Out();
    TreesNil(NameOf, NameTree, start);
    for i := 0 to |rdns|
      invariant b.Out() == Cat(start, Lift(Trees(NameOf, NameTree, rdns[..i])))
    {
      AddRdn(b, rdns[i]);
      TreesStep(NameOf, NameTree, rdns[..i], rdns[i], start);
      assert rdns[..i + 1] == rdns[..i] + [rdns[i]];
    }
    assert rdns[..|rdns|] == rdns;
    b.Close(mark, before, SEQUENCE, Lift(Trees(NameOf, NameTree, rdns)));
    LiftNode(SEQUENCE, Trees(NameOf, NameTree, rdns));
  }

  method AddRdn(b: Builder, rdn: Rdn)
    modifies b
    ensures b.Out() == Cat(old(b.Out()), Lift(TreeOf(NameTree, NameOf(rdn))))
  {
    RdnLift(rdn);
    hide Lift, Cat, Opened, Elem, TreeOf, NameOf, NameTree, OidWireOf;
    ghost var oid, value := OidWireOf(rdn.oid), RdnValueWire(rdn.value);
    ghost var beforeSet := b.Out();
    var outer := b.Open(SET);
    ghost var before := b.Out();
    var inner := b.Open(SEQUENCE);
    ghost var start := b.Out();
    AddOid(b, rdn.oid);
    if rdn.value.Some? {
      b.AddPrimitive(UTF8_STRING, rdn.value.value);
    } else {
      CatEmpty(b.Out());
    }
    CatAssoc(start, oid, value);
    b.Close(inner, before, SEQUENCE, Cat(oid, value));
    b.Close(outer, beforeSet, SET, Elem(SEQUENCE, Cat(oid, value)));
  }

  function RdnValueWire(value: Option<bytes>): Wire {
    if value.Some? then Elem(UTF8_STRING, value) else Some([])
  }

  lemma RdnLift(rdn: Rdn)
    ensures Elem(SET, Elem(SEQUENCE, Cat(OidWireOf(rdn.oid), RdnValueWire(rdn.value))))
            == Lift(TreeOf(NameTree, NameOf(rdn)))
  {
    hide OidOf, Elem, Cat, OidTree, TreesWire;
    var oid := TreeOf(OidTree, OidOf(rdn.oid));
    var value: Forest := Some(if rdn.value.Some? then [Prim(UTF8_STRING, rdn.value.value)] else []);
    RdnValueLift(rdn.value);
    LiftAppend(oid, value);
    LiftNode(SEQUENCE, Append(oid, value));
    LiftNode(SET, Node(SEQUENCE, Append(oid, value)));
  }

  lemma RdnValueLift(value: Option<bytes>)
    ensures RdnValueWire(value) == Lift(Some(if value.Some? then [Prim(UTF8_STRING, value.value)] else []))
  {
    if value.Some? {
      LiftTree(Prim(UTF8_STRING, value.value));
    }
  }

  method AddSubjectPKInfoTemplate(b: Builder, ka: KeyAlgorithm)
    modifies b
    ensures b.Out() == Cat(old(b.Out()), Lift(TreeOf(KeyTypeTree, KeyTypeOf(ka))))
  {
    KeyTypeLift(ka);
    hide Lift, Cat, Opened, Elem, TreeOf, KeyTypeOf, KeyTypeTree, OidWireOf;
    ghost var oid, curve := OidWireOf(ka.oid), CurveWire(ka.curveOid);
    ghost var beforeInfo := b.Out();
    var outer := b.Open(CONTEXT0);
    ghost var before := b.Out();
    var inner := b.Open(SEQUENCE);
    ghost var start := b.Out();
    AddOid(b, ka.oid);
    if ka.curveOid != "" {
      AddOid(b, ka.curveOid);
    } else {
      CatEmpty(b.Out());
    }
    CatAssoc(start, oid, curve);
    b.Close(inner, before, SEQUENCE, Cat(oid, curve));
    b.Close(outer, beforeInfo, CONTEXT0, Elem(SEQUENCE, Cat(oid, curve)));
  }

  function CurveWire(curveOid: string): Wire {
    if curveOid != "" then OidWireOf(curveOid) else Some([])
  }

  lemma KeyTypeLift(ka: KeyAlgorithm)
    ensures Elem(CONTEXT0, Elem(SEQUENCE, Cat(OidWireOf(ka.oid), CurveWire(ka.curveOid))))
         == Lift(TreeOf(KeyTypeTree, KeyTypeOf(ka)))
  {
    EmptyLift();
    hide OidOf, Elem, Cat, OidTree, TreesWire;
    var oid := TreeOf(OidTree, OidOf(ka.oid));
    var curve := if ka.curveOid != "" then TreeOf(OidTree, OidOf(ka.curveOid)) else Some([]);
    LiftAppend(oid, curve);
    LiftNode(SEQUENCE, Append(oid, curve));
    LiftNode(CONTEXT0, Node(SEQUENCE, Append(oid, curve)));
  }

  method AddTemplate(b: Builder, t: CsrTemplate)
    modifies b
    ensures b.Out() == Cat(old(b.Out()), Lift(TreeOf(TemplateTree, TemplateOf(t))))
    decreases 0, 5
  {
    TemplateIs(t);
    BitsLift(0);
    hide Lift, Cat, Opened, Elem, TreeOf, TemplateTree, TemplateOf, KeyTypeOf, KeyTypeTree, TemplateExtsOf,
         AttributesTree, Trees, Node, Append, IntOctets, IntWire;
    ghost var before := b.Out();
    var mark := b.Open(SEQUENCE);
    ghost var start := b.Out();
    b.AddInt64(0);
    ghost var f: Forest := Some([Prim(INTEGER, IntOctets(0))]);
    ghost var subject := SubjectForest(t.subject);
    if |t.subject| > 0 {
      AddSubjectTemplate(b, t.subject);
    } else {
      EmptyLift();
      CatEmpty(b.Out());
    }
    Extend(start, f, subject);
    f := Append(f, subject);
    ghost var key := KeyForest(t.keyType);
    if t.keyType.Some? {
      AddSubjectPKInfoTemplate(b, t.keyType.value);
    } else {
      EmptyLift();
      CatEmpty(b.Out());
    }
    Extend(start, f, key);
    f := Append(f, key);
    AddTemplateAttributes(b, t.extensions);
    Extend(start, f, TreeOf(AttributesTree, TemplateExtsOf(t.extensions)));
    f := Append(f, TreeOf(AttributesTree, TemplateExtsOf(t.extensions)));
    b.Close(mark, before, SEQUENCE, Lift(f));
    LiftNode(SEQUENCE, f);
  }

  function SubjectForest(rdns: seq<Rdn>): Forest {
    if |rdns| > 0 then Node(SEQUENCE, Trees(NameOf, NameTree, rdns)) else Some([])
  }

  function KeyForest(ka: Option<KeyAlgorithm>): Forest {
    if ka.Some? then TreeOf(KeyTypeTree, KeyTypeOf(ka.value)) else Some([])
  }

  lemma TemplateIs(t: CsrTemplate)
    ensures TreeOf(TemplateTree, TemplateOf(t))
         == Node(SEQUENCE, Append(Append(Append(Some([Prim(INTEGER, IntOctets(0))]), SubjectForest(t.subject)),
                                         KeyForest(t.keyType)), TreeOf(AttributesTree, TemplateExtsOf(t.extensions))))
  {
    hide NameOf, NameTree, KeyTypeOf, KeyTypeTree, TemplateExtsOf, AttributesTree, IntOctets;
    assert t.subject == [] ==> Traverse(NameOf, t.subject).value == [];
    if Traverse(NameOf, t.subject).Some? {
      assert |Map(NameTree, Traverse(NameOf, t.subject).value)| == |t.subject|;
    }
  }

  // -- Encode ------------------------------------------------------------------------------------

  datatype Encoded = NoContent | Response(der: bytes) | Failed

  function EncodedOptions(o: Options): Encoded {
    if !o.Valid() then Failed
    else if o.IsEmpty() then NoContent
    else match Elem(SEQUENCE, Lift(EntriesForest(EntriesOf(o)))) case Some(der) => Response(der) case None => Failed
  }

  method EncodeOptions(o: Options) returns (r: Encoded)
    ensures r == EncodedOptions(o)
  {
    hide Elem, Lift, EntriesForest, EntriesOf, Cat, Opened;
    if !o.Valid() {
      return Failed;
    }
    if o.IsEmpty() {
      return NoContent;
    }
    var b := new Builder();
    var mark := b.Open(SEQUENCE);
    AddEntries(b, o);
    b.Close(mark, Some([]), SEQUENCE, Lift(EntriesForest(EntriesOf(o))));
    CatEmpty(Elem(SEQUENCE, Lift(EntriesForest(EntriesOf(o)))));
    var der := b.Bytes();
    r := if der.Some? then Response(der.value) else Failed;
  }

  method AddEntries(b: Builder, o: Options)
    modifies b
    ensures b.Out() == Cat(old(b.Out()), Lift(EntriesForest(EntriesOf(o))))
  {
    EntriesAre(o);
    KnownStrings();
    RequestLift(o);
    hide Lift, EntriesForest, EntriesOf, Cat, Append, TreeOf, EntryTree, KeyOf, RequiredOf, AttributeWire, ValueWire,
         OidOf, OidWireOf, Trees, BareOf;
    ghost var start := b.Out();
    ghost var f := ChallengeForest(o.challengePassword);
    EmptyLift();
    CatEmpty(start);
    if o.challengePassword {
      AddOid(b, CHALLENGE_PASSWORD_OID);
    }
    if o.keyAlgorithm.Some? {
      AddKeyAlgorithmAttribute(b, o.keyAlgorithm.value);
    } else {
      CatEmpty(b.Out());
    }
    Extend(start, f, KeyAlgorithmForest(o.keyAlgorithm));
    f := Append(f, KeyAlgorithmForest(o.keyAlgorithm));
    if |o.requiredExtensions| > 0 {
      AddExtensionReqAttribute(b, o.requiredExtensions);
    } else {
      CatEmpty(b.Out());
    }
    Extend(start, f, RequiredForest(o.requiredExtensions));
    f := Append(f, RequiredForest(o.requiredExtensions));
    AddExtraOids(b, o.extraOids);
    Extend(start, f, Trees(BareOf, EntryTree, o.extraOids));
    f := Append(f, Trees(BareOf, EntryTree, o.extraOids));
    if o.template.Some? {
      AddAttribute(b, REQUEST_TEMPLATE_OID, TemplateValue(o.template.value));
    } else {
      CatEmpty(b.Out());
    }
    Extend(start, f, RequestForest(o.template));
    f := Append(f, RequestForest(o.template));
  }

  function ChallengeForest(wanted: bool): Forest {
    if wanted then TreeOf(EntryTree, BareOf(CHALLENGE_PASSWORD_OID)) else Some([])
  }

  function KeyAlgorithmForest(ka: Option<KeyAlgorithm>): Forest {
    if ka.Some? then TreeOf(EntryTree, KeyOf(ka.value)) else Some([])
  }

  function RequiredForest(exts: seq<Extension>): Forest {
    if |exts| > 0 then TreeOf(EntryTree, RequiredOf(exts)) else Some([])
  }

  function RequestForest(t: Option<CsrTemplate>): Forest {
    if t.Some? then TreeOf(EntryTree, RequestOf(t.value)) else Some([])
  }

  method AddExtraOids(b: Builder, extraOids: seq<string>)
    modifies b
    ensures b.Out() == Cat(old(b.Out()), Lift(Trees(BareOf, EntryTree, extraOids)))
  {
    hide Lift, Cat, Trees, TreeOf, EntryTree, BareOf, OidWireOf;
    ghost var start := b.Out();
    TreesNil(BareOf, EntryTree, start);
    for i := 0 to |extraOids|
      invariant b.Out() == Cat(start, Lift(Trees(BareOf, EntryTree, extraOids[..i])))
    {
      AddOid(b, extraOids[i]);
      BareLift(extraOids[i]);
      TreesStep(BareOf, EntryTree, extraOids[..i], extraOids[i], start);
      assert extraOids[..i + 1] == extraOids[..i] + [extraOids[i]];
    }
    assert extraOids[..|extraOids|] == extraOids;
  }

  lemma BareLift(dotted: string)
    ensures OidWireOf(dotted) == Lift(TreeOf(EntryTree, BareOf(dotted)))
  {
    hide OidOf, OidTree, TreesWire;
  }

  lemma RequestLift(o: Options)
    ensures ChallengeForest(true) == TreeOf(EntryTree, Some(Bare(IdChallengePassword())))
    ensures OidWireOf(CHALLENGE_PASSWORD_OID) == Lift(ChallengeForest(true))
    ensures o.template.Some? ==>
      AttributeWire(OidOf(REQUEST_TEMPLATE_OID), ValueWire(TemplateValue(o.template.value)))
          == Lift(RequestForest(o.template))
  {
    hide OidOf, Lift, OidTree, TemplateOf, TemplateTree, AttributeTree, AttributeWire, IdRequestTemplate,
         IdChallengePassword;
    KnownStrings();
    BareLift(CHALLENGE_PASSWORD_OID);
    if o.template.Some? {
      AttributeLift(Some(IdRequestTemplate()), TreeOf(TemplateTree, TemplateOf(o.template.value)));
    }
  }

  lemma EntriesAppend(f: Option<seq<Entry>>, g: Option<seq<Entry>>)
    ensures EntriesForest(Append(f, g)) == Append(EntriesForest(f), EntriesForest(g))
  {
    hide EntryTree;
    if f.Some? && g.Some? {
      assert Map(EntryTree, f.value + g.value) == Map(EntryTree, f.value) + Map(EntryTree, g.value);
    }
  }

  lemma OptionalEntry(wanted: bool, e: Option<Entry>)
    ensures EntriesForest(if wanted then One(e) else Some([])) == if wanted then TreeOf(EntryTree, e) else Some([])
  {
    hide EntryTree;
    assert Map(EntryTree, []) == [];
    if wanted && e.Some? {
      assert Map(EntryTree, [e.value]) == [EntryTree(e.value)];
    }
  }

  /** The forest written part by part is that of the entries. */
  lemma EntriesAre(o: Options)
    ensures EntriesForest(EntriesOf(o))
         == Append(Append(Append(Append(ChallengeForest(o.challengePassword), KeyAlgorithmForest(o.keyAlgorithm)),
                                 RequiredForest(o.requiredExtensions)),
                          Trees(BareOf, EntryTree, o.extraOids)),
                   RequestForest(o.template))
  {
    hide KeyOf, RequiredOf, BareOf, EntryTree, RequestOf, OidOf, Append, TreeOf;
    var challenge := if o.challengePassword then One(BareOf(CHALLENGE_PASSWORD_OID)) else Some([]);
    var key := if o.keyAlgorithm.Some? then One(KeyOf(o.keyAlgorithm.value)) else Some([]);
    var required := if o.requiredExtensions != [] then One(RequiredOf(o.requiredExtensions)) else Some([]);
    var request := if o.template.Some? then One(RequestOf(o.template.value)) else Some([]);
    OptionalEntry(o.challengePassword, BareOf(CHALLENGE_PASSWORD_OID));
    OptionalEntry(o.keyAlgorithm.Some?, if o.keyAlgorithm.Some? then KeyOf(o.keyAlgorithm.value) else None);
    OptionalEntry(o.requiredExtensions != [], RequiredOf(o.requiredExtensions));
    OptionalEntry(o.template.Some?, if o.template.Some? then RequestOf(o.template.value) else None);
    EntriesAppend(challenge, key);
    EntriesAppend(Append(challenge, key), required);
    EntriesAppend(Append(Append(challenge, key), required), Traverse(BareOf, o.extraOids));
    EntriesAppend(Append(Append(Append(challenge, key), required), Traverse(BareOf, o.extraOids)), request);
  }

  // -- Facts about fixed strings and shapes --------------------------------------------------------

  /** One more number in front; prefix and tail are spellings already put together. */
  lemma DottedStep(n: nat, digits: string, rest: seq<nat>, prefix: string, tail: string)
    requires Itoa(n) == digits && rest != [] && Dotted(rest) == prefix + tail
    ensures Dotted([n] + rest) == (digits + "." + prefix) + tail
  {
    hide Itoa;
    assert ([n] + rest)[1..] == rest;
    assert digits + "." + (prefix + tail) == (digits + "." + prefix) + tail;
  }

  lemma Numbers()
    ensures Itoa(1) == "1" && Itoa(2) == "2" && Itoa(7) == "7" && Itoa(9) == "9" && Itoa(14) == "14" && Itoa(16) == "16"
    ensures Itoa(61) == "61" && Itoa(62) == "62" && Itoa(840) == "840" && Itoa(113549) == "113549"
  {
    assert Itoa(11) == "11";
    assert Itoa(113) == "113";
    assert Itoa(1135) == "1135";
    assert Itoa(11354) == "11354";
    assert Itoa(84) == "84";
  }

  lemma OidOfDotted(oid: seq<nat>)
    requires BuilderAccepts(oid) && forall i :: 0 <= i < |oid| ==> oid[i] < TWO63
    ensures OidOf(Dotted(oid)) == Some(oid)
  {
    hide Dotted, ParseOid, BuilderAccepts;
    assert |oid| >= 2 by {
      ParseDottedLong(oid);
    }
    ParseDotted(oid);
  }

  lemma ParseDottedLong(oid: seq<nat>)
    requires BuilderAccepts(oid)
    ensures |oid| >= 2
  {
  }

  /** Identifiers under the PKCS #9 arc. */
  lemma Pkcs9String(rest: seq<nat>, tail: string)
    requires rest != [] && Dotted(rest) == tail && forall i :: 0 <= i < |rest| ==> rest[i] < TWO63
    ensures OidOf("1.2.840.113549.1.9." + tail) == Some([1, 2, 840, 113549, 1, 9] + rest)
  {
    hide Dotted, OidOf;
    Pkcs9Dotted(rest, tail);
    var oid: seq<nat> := [1, 2, 840, 113549, 1, 9] + rest;
    assert oid[0] == 1 && oid[1] == 2 && |oid| > 6;
    OidOfDotted(oid);
  }

  lemma EmptyPrefix(s: string)
    ensures "" + s == s
  {
  }

  lemma Pkcs9Dotted(rest: seq<nat>, tail: string)
    requires rest != [] && Dotted(rest) == tail
    ensures Dotted([1, 2, 840, 113549, 1, 9] + rest) == "1.2.840.113549.1.9." + tail
  {
    hide Dotted, Itoa;
    Numbers();
    EmptyPrefix(tail);
    DottedStep(9, "9", rest, "", tail);
    DottedStep(1, "1", [9] + rest, "9" + "." + "", tail);
    assert [1] + ([9] + rest) == [1, 9] + rest && "1" + "." + ("9" + "." + "") == "1.9.";
    DottedStep(113549, "113549", [1, 9] + rest, "1.9.", tail);
    assert [113549] + ([1, 9] + rest) == [113549, 1, 9] + rest && "113549" + "." + "1.9." == "113549.1.9.";
    Pkcs9Front([113549, 1, 9] + rest, tail);
    assert [1, 2, 840] + ([113549, 1, 9] + rest) == [1, 2, 840, 113549, 1, 9] + rest;
  }

  lemma Pkcs9Front(rest: seq<nat>, tail: string)
    requires rest != [] && Dotted(rest) == "113549.1.9." + tail
    ensures Dotted([1, 2, 840] + rest) == "1.2.840.113549.1.9." + tail
  {
    hide Dotted, Itoa;
    Numbers();
    FrontTexts();
    Fronts(rest);
    DottedStep(840, "840", rest, "113549.1.9.", tail);
    DottedStep(2, "2", [840] + rest, "840.113549.1.9.", tail);
    DottedStep(1, "1", [2, 840] + rest, "2.840.113549.1.9.", tail);
  }

  lemma FrontTexts()
    ensures "840" + "." + "113549.1.9." == "840.113549.1.9."
    ensures "2" + "." + "840.113549.1.9." == "2.840.113549.1.9."
    ensures "1" + "." + "2.840.113549.1.9." == "1.2.840.113549.1.9."
  {
  }

  lemma Fronts(rest: seq<nat>)
    ensures [2] + ([840] + rest) == [2, 840] + rest && [1] + ([2, 840] + rest) == [1, 2, 840] + rest
  {
  }

  lemma TemplateTails()
    ensures Dotted([7]) == "7" && Dotted([14]) == "14"
    ensures Dotted([16, 2, 61]) == "16.2.61" && Dotted([16, 2, 62]) == "16.2.62"
  {
    Numbers();
    hide Itoa;
    assert [2, 61][1..] == [61] && [16, 2, 61][1..] == [2, 61];
    assert [2, 62][1..] == [62] && [16, 2, 62][1..] == [2, 62];
  }

  lemma KnownStrings()
    ensures OidOf(CHALLENGE_PASSWORD_OID) == Some(IdChallengePassword())
    ensures OidOf(EXTENSION_REQ_OID) == Some(IdExtensionReq())
    ensures OidOf(REQUEST_TEMPLATE_OID) == Some(IdRequestTemplate())
    ensures OidOf(EXTENSION_REQ_TEMPLATE_OID) == Some(IdExtensionReqTemplate())
  {
    hide OidOf, Dotted;
    TemplateTails();
    Pkcs9String([7], "7");
    Pkcs9String([14], "14");
    Pkcs9String([16, 2, 61], "16.2.61");
    Pkcs9String([16, 2, 62], "16.2.62");
    assert [1, 2, 840, 113549, 1, 9] + [7] == IdChallengePassword();
    assert [1, 2, 840, 113549, 1, 9] + [14] == IdExtensionReq();
    assert [1, 2, 840, 113549, 1, 9] + [16, 2, 61] == IdRequestTemplate();
    assert [1, 2, 840, 113549, 1, 9] + [16, 2, 62] == IdExtensionReqTemplate();
    assert "1.2.840.113549.1.9." + "7" == CHALLENGE_PASSWORD_OID;
    assert "1.2.840.113549.1.9." + "14" == EXTENSION_REQ_OID;
    assert "1.2.840.113549.1.9." + "16.2.61" == REQUEST_TEMPLATE_OID;
    assert "1.2.840.113549.1.9." + "16.2.62" == EXTENSION_REQ_TEMPLATE_OID;
  }

  lemma ExtsShaped(exts: seq<Ext>)
    ensures Shaped(ExtsTree(exts))
  {
    forall i | 0 <= i < |exts| ensures Shaped(ExtTree(exts[i])) {
      var kids := ExtTree(exts[i]).kids;
      assert forall j :: 0 <= j < |kids| ==> kids[j].Prim?;
    }
  }
}
