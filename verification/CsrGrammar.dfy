/**
 The CsrAttrs grammar of section 4.5.2 of RFC 7030 and sections 3.2 and 3.4 of RFC 9908 as
 typed entries, the element trees they are written as, and a strict reader for those trees.
 */
module CsrGrammar {
  import opened Common
  import opened Der
  import opened Oid
  import opened Builder

  function IdChallengePassword(): Arcs {
    [1, 2, 840, 113549, 1, 9, 7]
  }

  function IdExtensionReq(): Arcs {
    [1, 2, 840, 113549, 1, 9, 14]
  }

  function IdRequestTemplate(): Arcs {
    [1, 2, 840, 113549, 1, 9, 16, 2, 61]
  }

  function IdExtensionReqTemplate(): Arcs {
    [1, 2, 840, 113549, 1, 9, 16, 2, 62]
  }


  // -- Entries ---------------------------------------------------------------------

  datatype Param = Absent | Curve(curve: Arcs) | Bits(bits: int)

  // An extension; its value is absent when the client is to fill it in.
  datatype Ext = Ext(oid: Arcs, critical: bool, value: Option<bytes>)

  // One relative distinguished name, blank or dictated.
  datatype Name = Name(oid: Arcs, value: Option<bytes>)

  datatype KeyType = KeyType(oid: Arcs, curve: Option<Arcs>)

  datatype RequestTemplate = RequestTemplate(subject: seq<Name>, key: Option<KeyType>, exts: seq<Ext>)

  datatype Entry =
    | Bare(oid: Arcs)
    | Key(oid: Arcs, param: Param)
    | Extensions(exts: seq<Ext>)
    | Template(template: RequestTemplate)

  /** p holds of every object identifier that occurs in the entry. */
  predicate AllOids(e: Entry, p: Arcs -> bool) {
    match e
    case Bare(oid) => p(oid)
    case Key(oid, param) => p(oid) && (param.Curve? ==> p(param.curve))
    case Extensions(exts) => AllExtOids(exts, p)
    case Template(t) =>
      && (forall i :: 0 <= i < |t.subject| ==> p(t.subject[i].oid))
      && (t.key.Some? ==> AllKeyOids(t.key.value, p))
      && AllExtOids(t.exts, p)
  }

  predicate AllKeyOids(k: KeyType, p: Arcs -> bool) {
    p(k.oid) && (k.curve.Some? ==> p(k.curve.value))
  }

  predicate AllExtOids(exts: seq<Ext>, p: Arcs -> bool) {
    forall i :: 0 <= i < |exts| ==> p(exts[i].oid)
  }

  predicate Writable(oid: Arcs) {
    MarshalAccepts(oid) && forall i :: 0 <= i < |oid| ==> Int64(oid[i])
  }

  predicate Readable(oid: Arcs) {
    |oid| >= 2 && Faithful(oid)
  }

  predicate AllValued(exts: seq<Ext>) {
    forall i :: 0 <= i < |exts| ==> exts[i].value.Some?
  }

  /** The entries the writer can be asked for. */
  predicate WellFormed(e: Entry) {
    && AllOids(e, Writable)
    && (e.Key? && e.param.Bits? ==> e.param.bits != 0 && Int64(e.param.bits))
    && (e.Extensions? ==> e.exts != [] && AllValued(e.exts))
  }

  // -- Entries as trees ----------------------------------------------------------------

  function OidTree(oid: Arcs): Tree {
    Prim(OBJECT_IDENTIFIER, if |oid| >= 2 then OidOctets(oid) else [])
  }

  function AttributeTree(oid: Arcs, values: seq<Tree>): Tree {
    Cons(SEQUENCE, [OidTree(oid), Cons(SET, values)])
  }

  /** Critical is written only when true, the value only when present. */
  function ExtTree(e: Ext): Tree {
    Cons(SEQUENCE, [OidTree(e.oid)]
                   + (if e.critical then [Prim(BOOLEAN, [0xff])] else [])
                   + (if e.value.Some? then [Prim(OCTET_STRING, e.value.value)] else []))
  }

  function ExtsTree(exts: seq<Ext>): Tree {
    Cons(SEQUENCE, Map(ExtTree, exts))
  }

  function NameTree(n: Name): Tree {
    Cons(SET, [Cons(SEQUENCE,
      [OidTree(n.oid)] + (if n.value.Some? then [Prim(UTF8_STRING, n.value.value)] else []))])
  }

  function KeyTypeTree(k: KeyType): Tree {
    Cons(CONTEXT0, [Cons(SEQUENCE, [OidTree(k.oid)] + (if k.curve.Some? then [OidTree(k.curve.value)] else []))])
  }

  /** Section 3.4 of RFC 9908: one attribute if there are extensions, whose type says whether all have values. */
  function AttributesTree(exts: seq<Ext>): Tree {
    Cons(CONTEXT1,
      if exts == [] then []
      else [AttributeTree(if AllValued(exts) then IdExtensionReq() else IdExtensionReqTemplate(), [ExtsTree(exts)])])
  }

  function TemplateKids(names: seq<Tree>, key: seq<Tree>, attributes: Tree): seq<Tree> {
    [Prim(INTEGER, IntOctets(0))] + (if names == [] then [] else [Cons(SEQUENCE, names)]) + key + [attributes]
  }

  function TemplateTree(t: RequestTemplate): Tree {
    Cons(SEQUENCE, TemplateKids(
      Map(NameTree, t.subject),
      if t.key.Some? then [KeyTypeTree(t.key.value)] else [],
      AttributesTree(t.exts)))
  }

  function ParamTrees(p: Param): seq<Tree> {
    match p
    case Absent => []
    case Curve(curve) => [OidTree(curve)]
    case Bits(bits) => [Prim(INTEGER, IntOctets(bits))]
  }

  function EntryTree(e: Entry): Tree {
    match e
    case Bare(oid) => OidTree(oid)
    case Key(oid, param) => AttributeTree(oid, ParamTrees(param))
    case Extensions(exts) => AttributeTree(IdExtensionReq(), [ExtsTree(exts)])
    case Template(t) => AttributeTree(IdRequestTemplate(), [TemplateTree(t)])
  }

  // -- The strict reader ------------------------------------------------------------------

  function ReadOid(t: Tree): Option<Arcs> {
    if t.Prim? && t.tag == OBJECT_IDENTIFIER then DecodeOid(t.content) else None
  }

  predicate IsCons(t: Tree, tag: byte) {
    t.Cons? && t.tag == tag
  }

  predicate IsPrim(t: Tree, tag: byte) {
    t.Prim? && t.tag == tag
  }

  function ReadExt(t: Tree): Option<Ext> {
    if !IsCons(t, SEQUENCE) || t.kids == [] then None
    else
      match ReadOid(t.kids[0])
      case None => None
      case Some(oid) =>
        var critical := |t.kids| > 1 && t.kids[1] == Prim(BOOLEAN, [0xff]);
        var next := if critical then 2 else 1;
        if |t.kids| == next then Some(Ext(oid, critical, None))
        else if |t.kids| == next + 1 && IsPrim(t.kids[next], OCTET_STRING) then
          Some(Ext(oid, critical, Some(t.kids[next].content)))
        else None
  }

  function ReadExts(t: Tree): Option<seq<Ext>> {
    if IsCons(t, SEQUENCE) then Traverse(ReadExt, t.kids) else None
  }

  function ReadName(t: Tree): Option<Name> {
    if !IsCons(t, SET) || |t.kids| != 1 || !IsCons(t.kids[0], SEQUENCE) || t.kids[0].kids == [] then None
    else
      var kids := t.kids[0].kids;
      match ReadOid(kids[0])
      case None => None
      case Some(oid) =>
        if |kids| == 1 then Some(Name(oid, None))
        else if |kids| == 2 && IsPrim(kids[1], UTF8_STRING) then Some(Name(oid, Some(kids[1].content)))
        else None
  }

  function ReadKeyType(t: Tree): Option<KeyType> {
    if !IsCons(t, CONTEXT0) || |t.kids| != 1 || !IsCons(t.kids[0], SEQUENCE) then None
    else
      match Traverse(ReadOid, t.kids[0].kids)
      case None => None
      case Some(oids) =>
        if |oids| == 1 then Some(KeyType(oids[0], None))
        else if |oids| == 2 then Some(KeyType(oids[0], Some(oids[1])))
        else None
  }

  datatype Attribute = Attribute(oid: Arcs, values: seq<Tree>)

  function ReadAttribute(t: Tree): Option<Attribute> {
    if !IsCons(t, SEQUENCE) || |t.kids| != 2 || !IsCons(t.kids[1], SET) then None
    else
      match ReadOid(t.kids[0])
      case None => None
      case Some(oid) => Some(Attribute(oid, t.kids[1].kids))
  }

  function ReadAttributes(t: Tree): Option<seq<Ext>> {
    if !IsCons(t, CONTEXT1) then None
    else if t.kids == [] then Some([])
    else
      match ReadAttribute(t.kids[0])
      case None => None
      case Some(a) =>
        if |t.kids| != 1 || |a.values| != 1 then None
        else
          match ReadExts(a.values[0])
          case None => None
          case Some(exts) =>
            if exts != [] && a.oid == (if AllValued(exts) then IdExtensionReq() else IdExtensionReqTemplate())
            then Some(exts) else None
  }

  /** Which optional fields are there is decided by the tags alone. */
  function ReadTemplate(t: Tree): Option<RequestTemplate> {
    if !IsCons(t, SEQUENCE) || |t.kids| < 2 || t.kids[0] != Prim(INTEGER, IntOctets(0)) then None
    else
      var kids := t.kids;
      var hasSubject := kids[1].tag == SEQUENCE;
      var next := if hasSubject then 2 else 1;
      var hasKey := next < |kids| && kids[next].tag == CONTEXT0;
      var last := if hasKey then next + 1 else next;
      if |kids| != last + 1 || (hasSubject && (kids[1].Prim? || kids[1].kids == [])) then None
      else
        var subject := if hasSubject then Traverse(ReadName, kids[1].kids) else Some([]);
        var key := if hasKey then ReadKeyType(kids[next]) else None;
        var exts := ReadAttributes(kids[last]);
        if subject.None? || (hasKey && key.None?) || exts.None? then None
        else Some(RequestTemplate(subject.value, key, exts.value))
  }

  function ReadEntry(t: Tree): Option<Entry> {
    if t.Prim? then (match ReadOid(t) case Some(oid) => Some(Bare(oid)) case None => None)
    else
      match ReadAttribute(t)
      case None => None
      case Some(a) =>
        if a.values == [] then Some(Key(a.oid, Absent))
        else if |a.values| > 1 then None
        else ReadValue(a.oid, a.values[0])
  }

  function ReadValue(oid: Arcs, v: Tree): Option<Entry> {
    if v.Prim? then
      if v.tag == INTEGER then
        (match ReadInt64(v.content) case Some(n) => if n != 0 then Some(Key(oid, Bits(n))) else None case None => None)
      else
        (match ReadOid(v) case Some(curve) => Some(Key(oid, Curve(curve))) case None => None)
    else if oid == IdExtensionReq() then
      (match ReadExts(v)
       case Some(exts) => if exts != [] && AllValued(exts) then Some(Extensions(exts)) else None
       case None => None)
    else if oid == IdRequestTemplate() then
      (match ReadTemplate(v) case Some(t) => Some(Template(t)) case None => None)
    else None
  }

  function ReadCsrAttrs(der: bytes): Option<seq<Entry>> {
    match Parse(der)
    case None => None
    case Some(ts) => if |ts| == 1 && IsCons(ts[0], SEQUENCE) then Traverse(ReadEntry, ts[0].kids) else None
  }

  // -- Reading back what was written ----------------------------------------------------------

  lemma OidReadBack(oid: Arcs)
    requires Writable(oid)
    ensures ReadOid(OidTree(oid)) == Some(oid) <==> Readable(oid)
  {
    OidRoundTrip(oid);
  }

  lemma KnownOid(oid: Arcs)
    requires MarshalAccepts(oid) && Faithful(oid)
    ensures ReadOid(OidTree(oid)) == Some(oid)
  {
    FaithfulReadBack(oid);
  }

  lemma KnownOids()
    ensures ReadOid(OidTree(IdExtensionReq())) == Some(IdExtensionReq())
    ensures ReadOid(OidTree(IdExtensionReqTemplate())) == Some(IdExtensionReqTemplate())
    ensures ReadOid(OidTree(IdRequestTemplate())) == Some(IdRequestTemplate())
  {
    hide ReadOid, OidTree;
    KnownOid(IdExtensionReq());
    KnownOid(IdExtensionReqTemplate());
    KnownOid(IdRequestTemplate());
  }

  lemma ExtReadBack(e: Ext)
    requires Writable(e.oid)
    ensures ReadExt(ExtTree(e)) == Some(e) <==> Readable(e.oid)
  {
    OidReadBack(e.oid);
  }

  lemma ExtsReadBack(exts: seq<Ext>)
    requires AllExtOids(exts, Writable)
    ensures ReadExts(ExtsTree(exts)) == Some(exts) <==> AllExtOids(exts, Readable)
  {
    forall i | 0 <= i < |exts|
      ensures ReadExt(ExtTree(exts[i])) == Some(exts[i]) <==> Readable(exts[i].oid)
    {
      ExtReadBack(exts[i]);
    }
    TraverseMap(ReadExt, ExtTree, exts);
  }

  lemma NameReadBack(n: Name)
    requires Writable(n.oid)
    ensures ReadName(NameTree(n)) == Some(n) <==> Readable(n.oid)
  {
    OidReadBack(n.oid);
  }

  lemma SubjectReadBack(names: seq<Name>)
    requires forall i :: 0 <= i < |names| ==> Writable(names[i].oid)
    ensures Traverse(ReadName, Map(NameTree, names)) == Some(names)
            <==> forall i :: 0 <= i < |names| ==> Readable(names[i].oid)
  {
    forall i | 0 <= i < |names|
      ensures ReadName(NameTree(names[i])) == Some(names[i]) <==> Readable(names[i].oid)
    {
      NameReadBack(names[i]);
    }
    TraverseMap(ReadName, NameTree, names);
  }

  function KeyOids(k: KeyType): seq<Arcs> {
    [k.oid] + (if k.curve.Some? then [k.curve.value] else [])
  }

  lemma KeyTypeKids(k: KeyType)
    ensures KeyTypeTree(k) == Cons(CONTEXT0, [Cons(SEQUENCE, Map(OidTree, KeyOids(k)))])
  {
    hide OidTree;
    assert Map(OidTree, KeyOids(k)) == [OidTree(k.oid)] + (if k.curve.Some? then [OidTree(k.curve.value)] else []);
  }

  lemma KeyTypeRead(k: KeyType, read: Option<seq<Arcs>>)
    requires read == Traverse(ReadOid, Map(OidTree, KeyOids(k)))
    ensures ReadKeyType(KeyTypeTree(k)) == Some(k) <==> read == Some(KeyOids(k))
  {
    KeyTypeKids(k);
    hide OidTree, ReadOid, KeyTypeTree;
    assert Cons(CONTEXT0, [Cons(SEQUENCE, Map(OidTree, KeyOids(k)))]).kids[0].kids == Map(OidTree, KeyOids(k));
    if read.Some? {
      var oids := read.value;
      assert |oids| == 1 ==> (KeyType(oids[0], None) == k <==> oids == KeyOids(k));
      assert |oids| == 2 ==> (KeyType(oids[0], Some(oids[1])) == k <==> oids == KeyOids(k));
    }
  }

  lemma KeyTypeReadBack(k: KeyType)
    requires AllKeyOids(k, Writable)
    ensures ReadKeyType(KeyTypeTree(k)) == Some(k) <==> AllKeyOids(k, Readable)
  {
    hide OidTree, ReadOid, Writable, Readable, ReadKeyType, KeyTypeTree;
    var oids := KeyOids(k);
    forall i | 0 <= i < |oids| ensures ReadOid(OidTree(oids[i])) == Some(oids[i]) <==> Readable(oids[i]) {
      OidReadBack(oids[i]);
    }
    TraverseMap(ReadOid, OidTree, oids);
    KeyTypeRead(k, Traverse(ReadOid, Map(OidTree, oids)));
    assert oids[0] == k.oid && (k.curve.Some? ==> oids[1] == k.curve.value);
  }

  lemma AttributeRead(oid: Arcs, values: seq<Tree>)
    ensures ReadAttribute(AttributeTree(oid, values))
         == match ReadOid(OidTree(oid)) case Some(o) => Some(Attribute(o, values)) case None => None
  {
  }

  lemma AttributesRead(attribute: Tree, exts: seq<Ext>, oid: Arcs)
    requires exts != [] && ReadAttribute(attribute) == Some(Attribute(oid, [ExtsTree(exts)]))
    requires oid == if AllValued(exts) then IdExtensionReq() else IdExtensionReqTemplate()
    ensures ReadAttributes(Cons(CONTEXT1, [attribute])) == Some(exts) <==> ReadExts(ExtsTree(exts)) == Some(exts)
  {
  }

  lemma AttributesReadBack(exts: seq<Ext>)
    requires AllExtOids(exts, Writable)
    ensures ReadAttributes(AttributesTree(exts)) == Some(exts) <==> AllExtOids(exts, Readable)
  {
    if exts != [] {
      var oid := if AllValued(exts) then IdExtensionReq() else IdExtensionReqTemplate();
      KnownOids();
      ExtsReadBack(exts);
      AttributeRead(oid, [ExtsTree(exts)]);
      AttributesRead(AttributeTree(oid, [ExtsTree(exts)]), exts, oid);
    }
  }

  lemma TemplateRead(names: seq<Tree>, key: seq<Tree>, attributes: Tree)
    requires attributes.tag == CONTEXT1
    requires |key| <= 1 && (key != [] ==> key[0].tag == CONTEXT0)
    ensures ReadTemplate(Cons(SEQUENCE, TemplateKids(names, key, attributes)))
         == (var s := Traverse(ReadName, names);
             var k := if key == [] then None else ReadKeyType(key[0]);
             var exts := ReadAttributes(attributes);
             if s.None? || (key != [] && k.None?) || exts.None? then None
             else Some(RequestTemplate(s.value, k, exts.value)))
  {
    var kids := TemplateKids(names, key, attributes);
    assert kids[0] == Prim(INTEGER, IntOctets(0)) && kids[|kids| - 1] == attributes;
    if names == [] {
      assert Traverse(ReadName, names).value == [];
    } else {
      assert kids[1] == Cons(SEQUENCE, names);
    }
    if key != [] {
      assert kids[|kids| - 2] == key[0];
    }
  }

  lemma TemplateReadBack(t: RequestTemplate)
    requires AllOids(Template(t), Writable)
    ensures ReadTemplate(TemplateTree(t)) == Some(t) <==> AllOids(Template(t), Readable)
  {
    SubjectReadBack(t.subject);
    AttributesReadBack(t.exts);
    var key := if t.key.Some? then [KeyTypeTree(t.key.value)] else [];
    if t.key.Some? {
      KeyTypeReadBack(t.key.value);
    }
    TemplateRead(Map(NameTree, t.subject), key, AttributesTree(t.exts));
  }

  lemma KeyReadBack(oid: Arcs, param: Param)
    requires WellFormed(Key(oid, param))
    ensures ReadEntry(EntryTree(Key(oid, param))) == Some(Key(oid, param)) <==> AllOids(Key(oid, param), Readable)
  {
    hide OidTree, ReadOid, Writable, Readable, IdExtensionReq, IdRequestTemplate, MinimalInteger;
    OidReadBack(oid);
    AttributeRead(oid, ParamTrees(param));
    match param {
      case Absent =>
      case Curve(curve) =>
        OidReadBack(curve);
        OidTreePrim(curve);
      case Bits(bits) => BitsReadBack(bits);
    }
  }

  lemma OidTreePrim(oid: Arcs)
    ensures OidTree(oid).Prim? && OidTree(oid).tag == OBJECT_IDENTIFIER
  {
  }

  lemma BitsReadBack(bits: int)
    requires Int64(bits)
    ensures ReadInt64(IntOctets(bits)) == Some(bits)
  {
    IntValueOf(bits);
    IntSize(bits, 8);
    Pow256Eight();
  }

  lemma OneValueRead(attribute: Tree, oid: Arcs, v: Tree)
    requires attribute.Cons? && ReadAttribute(attribute) == Some(Attribute(oid, [v]))
    ensures ReadEntry(attribute) == ReadValue(oid, v)
  {
  }

  lemma ExtensionsValueRead(v: Tree)
    requires v.Cons?
    ensures ReadValue(IdExtensionReq(), v)
         == match ReadExts(v)
            case Some(exts) => if exts != [] && AllValued(exts) then Some(Extensions(exts)) else None
            case None => None
  {
  }

  lemma TemplateValueRead(v: Tree)
    requires v.Cons?
    ensures ReadValue(IdRequestTemplate(), v)
         == match ReadTemplate(v) case Some(t) => Some(Template(t)) case None => None
  {
    assert |IdExtensionReq()| != |IdRequestTemplate()|;
  }

  lemma ExtensionsReadBack(exts: seq<Ext>)
    requires WellFormed(Extensions(exts))
    ensures ReadEntry(EntryTree(Extensions(exts))) == Some(Extensions(exts)) <==> AllExtOids(exts, Readable)
  {
    var tree := ExtsTree(exts);
    assert ReadEntry(EntryTree(Extensions(exts))) == ReadValue(IdExtensionReq(), tree) by {
      KnownOids();
      AttributeRead(IdExtensionReq(), [tree]);
      OneValueRead(EntryTree(Extensions(exts)), IdExtensionReq(), tree);
    }
    ExtensionsValueRead(tree);
    ExtsReadBack(exts);
  }

  lemma RequestTemplateReadBack(t: RequestTemplate)
    requires WellFormed(Template(t))
    ensures ReadEntry(EntryTree(Template(t))) == Some(Template(t)) <==> AllOids(Template(t), Readable)
  {
    var tree := TemplateTree(t);
    assert ReadEntry(EntryTree(Template(t))) == ReadValue(IdRequestTemplate(), tree) by {
      KnownOids();
      AttributeRead(IdRequestTemplate(), [tree]);
      OneValueRead(EntryTree(Template(t)), IdRequestTemplate(), tree);
    }
    TemplateValueRead(tree);
    TemplateReadBack(t);
  }

  /** An entry is read back as itself exactly when each object identifier in it can be. */
  lemma EntryReadBack(e: Entry)
    requires WellFormed(e)
    ensures ReadEntry(EntryTree(e)) == Some(e) <==> AllOids(e, Readable)
  {
    match e
    case Bare(oid) => OidReadBack(oid);
    case Key(oid, param) => KeyReadBack(oid, param);
    case Extensions(exts) => ExtensionsReadBack(exts);
    case Template(t) => RequestTemplateReadBack(t);
  }

  lemma Pow256Eight()
    ensures Pow256(8) == 2 * TWO63
  {
    Pow256Values();
    assert Pow256(6) == 256 * Pow256(5);
    assert Pow256(8) == 256 * Pow256(7);
  }
}
