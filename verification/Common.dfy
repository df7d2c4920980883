/** Types and helpers shared by every module. */
module Common {
  datatype Option<+T> = None | Some(value: T)

  type byte = b: int | 0 <= b < 256

  // The source's strings are byte strings; a `string` here holds one byte per char.
  type bytes = seq<byte>

  function Map<A, B>(f: A -> B, xs: seq<A>): seq<B> {
    seq(|xs|, i requires 0 <= i < |xs| => f(xs[i]))
  }

  /** All results, or none if any is missing. */
  function Traverse<A, B>(f: A -> Option<B>, xs: seq<A>): Option<seq<B>> {
    if forall i :: 0 <= i < |xs| ==> f(xs[i]).Some? then
      Some(seq(|xs|, i requires 0 <= i < |xs| => f(xs[i]).value))
    else
      None
  }

  lemma TraverseCons<A, B>(f: A -> Option<B>, x: A, xs: seq<A>)
    requires f(x).Some? && Traverse(f, xs).Some?
    ensures Traverse(f, [x] + xs) == Some([f(x).value] + Traverse(f, xs).value)
  {
    var ys := [x] + xs;
    assert forall i :: 0 <= i < |ys| ==> ys[i] == if i == 0 then x else xs[i - 1];
    assert Traverse(f, ys).value == [f(x).value] + Traverse(f, xs).value;
  }

  /** Reading back a mapped list gives the list exactly when it does so item by item. */
  lemma TraverseMap<A, B>(f: B -> Option<A>, g: A -> B, xs: seq<A>)
    ensures Traverse(f, Map(g, xs)) == Some(xs) <==> forall i :: 0 <= i < |xs| ==> f(g(xs[i])) == Some(xs[i])
  {
    var ys := Map(g, xs);
    assert forall i :: 0 <= i < |xs| ==> ys[i] == g(xs[i]);
    if forall i :: 0 <= i < |xs| ==> f(g(xs[i])) == Some(xs[i]) {
      assert Traverse(f, ys).value == xs;
    }
  }

  function Flatten(parts: seq<bytes>): bytes {
    if parts == [] then [] else parts[0] + Flatten(parts[1..])
  }

  function Append<T>(a: Option<seq<T>>, b: Option<seq<T>>): Option<seq<T>> {
    if a.None? || b.None? then None else Some(a.value + b.value)
  }

  function One<T>(o: Option<T>): Option<seq<T>> {
    if o.None? then None else Some([o.value])
  }
}
