/** Element trees written through the builder: what is written, and when a length limit stops it. */
module TreeWriter {
  import opened Common
  import opened Der
  import opened Builder

  function TreeWire(t: Tree): Wire
    decreases t, 1
  {
    match t
    case Prim(tag, content) => Elem(tag, Some(content))
    case Cons(tag, kids) => Elem(tag, TreesWire(kids))
  }

  function TreesWire(ts: seq<Tree>): Wire
    decreases ts, 0
  {
    if ts == [] then Some([]) else Cat(TreeWire(ts[0]), TreesWire(ts[1..]))
  }

  lemma {:induction false} TreesWireConcat(ts: seq<Tree>, us: seq<Tree>)
    ensures TreesWire(ts + us) == Cat(TreesWire(ts), TreesWire(us))
  {
    if ts == [] {
      assert ts + us == us;
      CatEmpty(TreesWire(us));
    } else {
      TreesWireConcat(ts[1..], us);
      assert (ts + us)[1..] == ts[1..] + us;
      CatAssoc(TreeWire(ts[0]), TreesWire(ts[1..]), TreesWire(us));
    }
  }

  // Trees to be written one after another, or none when what they come from is malformed.
  type Forest = Option<seq<Tree>>

  function Lift(f: Forest): Wire {
    if f.None? then None else TreesWire(f.value)
  }

  function Node(tag: byte, f: Forest): Forest {
    if f.None? then None else Some([Cons(tag, f.value)])
  }

  lemma LiftTree(t: Tree)
    ensures Lift(Some([t])) == TreeWire(t)
  {
    CatEmpty(TreeWire(t));
    assert [t][1..] == [];
    assert TreesWire([t]) == Cat(TreeWire(t), TreesWire([]));
  }

  lemma LiftNode(tag: byte, f: Forest)
    ensures Lift(Node(tag, f)) == Elem(tag, Lift(f))
  {
    if f.Some? {
      LiftTree(Cons(tag, f.value));
    }
  }

  lemma LiftAppend(f: Forest, g: Forest)
    ensures Lift(Append(f, g)) == Cat(Lift(f), Lift(g))
  {
    if f.Some? && g.Some? {
      TreesWireConcat(f.value, g.value);
    }
  }

  /** Writing g after f has been written to start. */
  lemma Extend(start: Wire, f: Forest, g: Forest)
    ensures Cat(Cat(start, Lift(f)), Lift(g)) == Cat(start, Lift(Append(f, g)))
  {
    LiftAppend(f, g);
    CatAssoc(start, Lift(f), Lift(g));
  }

  // -- The length limit ----------------------------------------------------------------

  predicate Shaped(t: Tree)
    decreases t, 1
  {
    LowTag(t.tag) && (t.Prim? <==> !Constructed(t.tag)) && (t.Cons? ==> ShapedAll(t.kids))
  }

  predicate ShapedAll(ts: seq<Tree>)
    decreases ts, 0
  {
    forall i :: 0 <= i < |ts| ==> Shaped(ts[i])
  }

  function Content(t: Tree): bytes {
    if t.Prim? then t.content else EncodeAll(t.kids)
  }

  lemma {:induction false} TreesWireIs(ts: seq<Tree>)
    requires ShapedAll(ts)
    ensures TreesWire(ts).Some? ==> TreesWire(ts).value == EncodeAll(ts)
    ensures |EncodeAll(ts)| <= MAX_CONTENT ==> TreesWire(ts).Some? && ProperAll(ts)
    decreases ts, 0
  {
    if ts != [] {
      TreeWireIs(ts[0]);
      TreesWireIs(ts[1..]);
      assert |Content(ts[0])| <= |Encode(ts[0])|;
    }
  }

  /** The limit on the outermost content is the only one that matters: inner contents are shorter. */
  lemma {:induction false} TreeWireIs(t: Tree)
    requires Shaped(t)
    ensures TreeWire(t) == if |Content(t)| <= MAX_CONTENT then Some(Encode(t)) else None
    ensures |Content(t)| <= MAX_CONTENT ==> Proper(t)
    decreases t, 1
  {
    if t.Cons? {
      TreesWireIs(t.kids);
    }
  }

  /** Inside an element, an encoding made elsewhere is as good as writing the tree. */
  lemma RawInside(tag: byte, t: Tree)
    requires Shaped(t)
    ensures Elem(tag, Some(Encode(t))) == Elem(tag, Lift(Some([t])))
  {
    LiftTree(t);
    TreeWireIs(t);
    assert |Content(t)| <= |Encode(t)|;
  }
}
