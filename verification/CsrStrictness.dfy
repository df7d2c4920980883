/** The reader of CsrAttrs is strict: a response it reads is the encoding of what it reads, byte for byte. */
module CsrStrictness {
  import opened Common
  import opened Der
  import opened Oid
  import opened Builder
  import opened TreeWriter
  import opened CsrGrammar
  import opened CsrAttrsProperties

  /** Items that are each written back as they were read. */
  lemma TraverseInverse<A, B>(read: A -> Option<B>, write: B -> A, xs: seq<A>, ys: seq<B>)
    requires Traverse(read, xs) == Some(ys)
    requires forall i :: 0 <= i < |xs| && read(xs[i]).Some? && read(xs[i]).value == ys[i] ==> write(ys[i]) == xs[i]
    ensures xs == Map(write, ys)
  {
    assert forall i :: 0 <= i < |xs| ==> Traverse(read, xs).value[i] == read(xs[i]).value;
  }

  lemma OidCanonical(t: Tree, oid: Arcs)
    requires ReadOid(t) == Some(oid) && Readable(oid)
    ensures t == OidTree(oid)
  {
    DecodeOidCanonical(t.content, oid);
  }

  lemma ExtCanonical(t: Tree, e: Ext)
    requires ReadExt(t) == Some(e) && Readable(e.oid)
    ensures t == ExtTree(e)
  {
    OidCanonical(t.kids[0], e.oid);
    hide OidTree, ReadOid, Readable;
    var kids := t.kids;
    var critical := if e.critical then [Prim(BOOLEAN, [0xff])] else [];
    var value := if e.value.Some? then [Prim(OCTET_STRING, e.value.value)] else [];
    assert kids == [OidTree(e.oid)] + critical + value;
  }

  lemma ExtsCanonical(t: Tree, exts: seq<Ext>)
    requires ReadExts(t) == Some(exts) && AllExtOids(exts, Readable)
    ensures t == ExtsTree(exts)
  {
    hide ReadExt, ExtTree, Readable;
    forall i | 0 <= i < |t.kids| && ReadExt(t.kids[i]).Some? && ReadExt(t.kids[i]).value == exts[i]
      ensures ExtTree(exts[i]) == t.kids[i]
    {
      ExtCanonical(t.kids[i], exts[i]);
    }
    TraverseInverse(ReadExt, ExtTree, t.kids, exts);
  }

  lemma NameCanonical(t: Tree, n: Name)
    requires ReadName(t) == Some(n) && Readable(n.oid)
    ensures t == NameTree(n)
  {
    var kids := t.kids[0].kids;
    OidCanonical(kids[0], n.oid);
    hide OidTree, ReadOid, Readable;
    assert kids == [OidTree(n.oid)] + (if n.value.Some? then [Prim(UTF8_STRING, n.value.value)] else []);
    assert t.kids == [Cons(SEQUENCE, kids)];
  }

  lemma KeyTypeCanonical(t: Tree, k: KeyType)
    requires ReadKeyType(t) == Some(k) && AllKeyOids(k, Readable)
    ensures t == KeyTypeTree(k)
  {
    hide OidTree, ReadOid, Readable, KeyTypeTree;
    var kids, oids := t.kids[0].kids, KeyOids(k);
    assert Traverse(ReadOid, kids).value == oids;
    assert oids[0] == k.oid && (|oids| == 2 ==> oids[1] == k.curve.value);
    forall i | 0 <= i < |kids| && ReadOid(kids[i]).Some? && ReadOid(kids[i]).value == oids[i]
      ensures OidTree(oids[i]) == kids[i]
    {
      OidCanonical(kids[i], oids[i]);
    }
    TraverseInverse(ReadOid, OidTree, kids, oids);
    KeyTypeKids(k);
    assert t.kids == [Cons(SEQUENCE, kids)];
  }

  lemma AttributeCanonical(t: Tree, a: Attribute)
    requires ReadAttribute(t) == Some(a) && Readable(a.oid)
    ensures t == AttributeTree(a.oid, a.values)
  {
    OidCanonical(t.kids[0], a.oid);
    hide OidTree, ReadOid, Readable;
    assert t.kids == [t.kids[0], t.kids[1]];
  }

  lemma KnownReadable()
    ensures Readable(IdExtensionReq()) && Readable(IdExtensionReqTemplate()) && Readable(IdRequestTemplate())
  {
  }

  lemma AttributesCanonical(t: Tree, exts: seq<Ext>)
    requires ReadAttributes(t) == Some(exts) && AllExtOids(exts, Readable)
    ensures t == AttributesTree(exts)
  {
    KnownReadable();
    hide ReadAttribute, ReadExts, ExtsTree, AttributeTree, AllExtOids, Readable, IdExtensionReq, IdExtensionReqTemplate;
    if t.kids != [] {
      var a := ReadAttribute(t.kids[0]).value;
      AttributeCanonical(t.kids[0], a);
      ExtsCanonical(a.values[0], exts);
      assert a.values == [a.values[0]] && t.kids == [t.kids[0]];
    }
  }

  /** The kids of a template, by which optional fields are there. */
  function TemplateParts(subject: Option<Tree>, key: Option<Tree>, attributes: Tree): seq<Tree> {
    [Prim(INTEGER, IntOctets(0))] + (if subject.Some? then [subject.value] else [])
    + (if key.Some? then [key.value] else []) + [attributes]
  }

  /** A template read is a version, perhaps names, perhaps a key, and attributes, and nothing more. */
  lemma TemplateShape(tree: Tree, t: RequestTemplate)
    returns (subject: Option<Tree>, key: Option<Tree>, attributes: Tree)
    requires ReadTemplate(tree) == Some(t)
    ensures tree == Cons(SEQUENCE, TemplateParts(subject, key, attributes))
    ensures subject.Some? ==> IsCons(subject.value, SEQUENCE) && subject.value.kids != []
    ensures (if subject.Some? then Traverse(ReadName, subject.value.kids) else Some([])) == Some(t.subject)
    ensures if key.Some? then ReadKeyType(key.value) == t.key && t.key.Some? else t.key == None
    ensures ReadAttributes(attributes) == Some(t.exts)
  {
    hide ReadName, ReadKeyType, ReadAttributes, IntOctets, Traverse;
    var kids := tree.kids;
    var n := if kids[1].tag == SEQUENCE then 2 else 1;
    subject := if kids[1].tag == SEQUENCE then Some(kids[1]) else None;
    key := if n < |kids| && kids[n].tag == CONTEXT0 then Some(kids[n]) else None;
    attributes := kids[|kids| - 1];
    PartsAre(kids, subject, key);
  }

  lemma PartsAre(kids: seq<Tree>, subject: Option<Tree>, key: Option<Tree>)
    requires |kids| == 2 + (if subject.Some? then 1 else 0) + (if key.Some? then 1 else 0)
    requires kids[0] == Prim(INTEGER, IntOctets(0))
    requires subject.Some? ==> kids[1] == subject.value
    requires key.Some? ==> kids[|kids| - 2] == key.value
    ensures kids == TemplateParts(subject, key, kids[|kids| - 1])
  {
    hide IntOctets;
  }

  lemma TemplateCanonical(tree: Tree, t: RequestTemplate)
    requires ReadTemplate(tree) == Some(t) && AllOids(Template(t), Readable)
    ensures tree == TemplateTree(t)
  {
    var subject, key, attributes := TemplateShape(tree, t);
    hide ReadTemplate, ReadName, ReadKeyType, ReadAttributes, IntOctets, Readable, NameTree, KeyTypeTree,
         AttributesTree, AllExtOids;
    AttributesCanonical(attributes, t.exts);
    if key.Some? {
      KeyTypeCanonical(key.value, t.key.value);
    }
    if subject.Some? {
      SubjectCanonical(subject.value, t.subject);
    }
    TemplateFromParts(t, subject, key, attributes);
  }

  lemma SubjectCanonical(tree: Tree, names: seq<Name>)
    requires IsCons(tree, SEQUENCE) && Traverse(ReadName, tree.kids) == Some(names)
    requires forall i :: 0 <= i < |names| ==> Readable(names[i].oid)
    ensures tree == Cons(SEQUENCE, Map(NameTree, names))
  {
    hide ReadName, NameTree, Readable;
    forall i | 0 <= i < |tree.kids| && ReadName(tree.kids[i]).Some? && ReadName(tree.kids[i]).value == names[i]
      ensures NameTree(names[i]) == tree.kids[i]
    {
      NameCanonical(tree.kids[i], names[i]);
    }
    TraverseInverse(ReadName, NameTree, tree.kids, names);
  }

  lemma TemplateFromParts(t: RequestTemplate, subject: Option<Tree>, key: Option<Tree>, attributes: Tree)
    requires subject == if t.subject == [] then None else Some(Cons(SEQUENCE, Map(NameTree, t.subject)))
    requires key == if t.key.None? then None else Some(KeyTypeTree(t.key.value))
    requires attributes == AttributesTree(t.exts)
    ensures TemplateTree(t) == Cons(SEQUENCE, TemplateParts(subject, key, attributes))
  {
    hide IntOctets, NameTree, KeyTypeTree, AttributesTree;
    var names := Map(NameTree, t.subject);
    assert names == [] <==> t.subject == [];
    assert TemplateKids(names, if t.key.Some? then [KeyTypeTree(t.key.value)] else [], attributes)
        == TemplateParts(subject, key, attributes);
  }

  lemma BitsCanonical(v: Tree, n: int)
    requires IsPrim(v, INTEGER) && ReadInt64(v.content) == Some(n)
    ensures v == Prim(INTEGER, IntOctets(n))
  {
    IntOctetsFrom(v.content);
  }

  lemma ValueCanonical(oid: Arcs, v: Tree, e: Entry)
    requires ReadValue(oid, v) == Some(e) && AllOids(e, Readable)
    ensures EntryTree(e) == AttributeTree(oid, [v])
    ensures !e.Bare? && (e.Key? ==> e.oid == oid)
  {
    hide ReadExts, ReadTemplate, ReadOid, ReadInt64, ExtsTree, TemplateTree, OidTree, AttributeTree, IntOctets,
         Readable, AllExtOids, IdExtensionReq, IdRequestTemplate;
    match e {
      case Key(_, param) =>
        if param.Bits? {
          BitsCanonical(v, param.bits);
        } else {
          OidCanonical(v, param.curve);
        }
      case Extensions(exts) => ExtsCanonical(v, exts);
      case Template(t) => TemplateCanonical(v, t);
      case Bare(_) =>
    }
  }

  lemma AttributeOidReadable(oid: Arcs, v: Tree, e: Entry)
    requires ReadValue(oid, v) == Some(e) && AllOids(e, Readable)
    ensures Readable(oid)
  {
    KnownReadable();
    hide ReadExts, ReadTemplate, ReadOid, ReadInt64, Readable, AllExtOids, IdExtensionReq, IdRequestTemplate;
  }

  lemma EntryCanonical(t: Tree, e: Entry)
    requires ReadEntry(t) == Some(e) && AllOids(e, Readable)
    ensures t == EntryTree(e)
  {
    hide ReadValue, ReadOid, ReadAttribute, OidTree, AttributeTree, Readable, AllExtOids;
    if t.Prim? {
      OidCanonical(t, e.oid);
    } else {
      var a := ReadAttribute(t).value;
      if a.values == [] {
        AttributeCanonical(t, a);
      } else {
        assert a.values == [a.values[0]];
        AttributeOidReadable(a.oid, a.values[0], e);
        AttributeCanonical(t, a);
        ValueCanonical(a.oid, a.values[0], e);
      }
    }
  }

  predicate AllReadable(entries: seq<Entry>) {
    forall i :: 0 <= i < |entries| ==> AllOids(entries[i], Readable)
  }

  /** Nothing but the encoding of a list of entries is read as that list. */
  lemma StrictReader(der: bytes, entries: seq<Entry>)
    requires ReadCsrAttrs(der) == Some(entries) && AllReadable(entries)
    ensures der == Encode(ResponseTree(entries))
  {
    hide ReadEntry, EntryTree, AllOids;
    var ts := Parse(der).value;
    EncodeParse(der);
    var kids := ts[0].kids;
    forall i | 0 <= i < |kids| && ReadEntry(kids[i]).Some? && ReadEntry(kids[i]).value == entries[i]
      ensures EntryTree(entries[i]) == kids[i]
    {
      EntryCanonical(kids[i], entries[i]);
    }
    TraverseInverse(ReadEntry, EntryTree, kids, entries);
    assert ts == [ts[0]];
    EncodeAllOne(ts[0]);
  }

  /** So two responses that read alike are the same bytes. */
  lemma ReadsAreUnique(a: bytes, b: bytes)
    requires ReadCsrAttrs(a).Some? && AllReadable(ReadCsrAttrs(a).value) && ReadCsrAttrs(b) == ReadCsrAttrs(a)
    ensures a == b
  {
    hide ReadCsrAttrs, AllReadable;
    StrictReader(a, ReadCsrAttrs(a).value);
    StrictReader(b, ReadCsrAttrs(a).value);
  }
}
