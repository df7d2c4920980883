/** Byte-wise ordering of strings, and sorting as the one sorted permutation. */
module Sorting {

  predicate LexLe(a: string, b: string) {
    a == "" || (b != "" && if a[0] != b[0] then a[0] < b[0] else LexLe(a[1..], b[1..]))
  }

  /** The first character that differs, and is the smaller one in a. */
  predicate SmallerAt(a: string, b: string, k: nat) {
    k < |a| && k < |b| && a[k] < b[k] && forall i :: 0 <= i < k ==> a[i] == b[i]
  }

  lemma ShiftSmaller(a: string, b: string, k: nat)
    requires a != "" && b != "" && a[0] == b[0]
    ensures SmallerAt(a, b, k + 1) <==> SmallerAt(a[1..], b[1..], k)
    ensures !SmallerAt(a, b, 0)
  {
    if SmallerAt(a[1..], b[1..], k) {
      forall i | 0 <= i < k + 1 ensures a[i] == b[i] {
        assert i > 0 ==> a[i] == a[1..][i - 1] && b[i] == b[1..][i - 1];
      }
    }
  }

  /** A prefix comes first, and else the first character that differs decides. */
  lemma {:induction false} LexLeExactly(a: string, b: string)
    ensures LexLe(a, b) <==> a <= b || exists k: nat :: SmallerAt(a, b, k)
  {
    if a != "" && b != "" && a[0] == b[0] {
      LexLeExactly(a[1..], b[1..]);
      assert a <= b <==> a[1..] <= b[1..] by {
        assert a == [a[0]] + a[1..] && b == [b[0]] + b[1..];
      }
      forall k: nat ensures SmallerAt(a, b, k + 1) <==> SmallerAt(a[1..], b[1..], k) {
        ShiftSmaller(a, b, k);
      }
      ShiftSmaller(a, b, 0);
      hide SmallerAt;
      if k: nat :| SmallerAt(a, b, k) {
        assert k != 0 && SmallerAt(a, b, k - 1 + 1);
        assert SmallerAt(a[1..], b[1..], k - 1);
      }
      if k: nat :| SmallerAt(a[1..], b[1..], k) {
        assert SmallerAt(a, b, k + 1);
      }
    } else if a != "" && b != "" && a[0] < b[0] {
      assert SmallerAt(a, b, 0);
    }
  }

  lemma {:induction false} LexTotal(a: string, b: string)
    ensures LexLe(a, b) || LexLe(b, a)
    ensures LexLe(a, b) && LexLe(b, a) ==> a == b
  {
    if a != "" && b != "" {
      LexTotal(a[1..], b[1..]);
      assert a == [a[0]] + a[1..] && b == [b[0]] + b[1..];
    }
  }

  lemma {:induction false} LexTrans(a: string, b: string, c: string)
    requires LexLe(a, b) && LexLe(b, c)
    ensures LexLe(a, c)
  {
    if a != "" && b != "" && c != "" && a[0] == b[0] == c[0] {
      LexTrans(a[1..], b[1..], c[1..]);
    }
  }

  lemma {:induction false} LexPrefix(a: string, t: string)
    ensures LexLe(a, a + t)
  {
    if a != "" {
      LexPrefix(a[1..], t);
      assert (a + t)[1..] == a[1..] + t;
    }
  }

  predicate Sorted(xs: seq<string>) {
    forall i, j :: 0 <= i < j < |xs| ==> LexLe(xs[i], xs[j])
  }

  /** A sorted permutation is determined by what it permutes. */
  lemma {:induction false} SortedUnique(xs: seq<string>, ys: seq<string>)
    requires Sorted(xs) && Sorted(ys) && multiset(xs) == multiset(ys)
    ensures xs == ys
    decreases |xs|
  {
    hide LexLe, Sorted;
    assert |xs| == |multiset(xs)| && |ys| == |multiset(ys)|;
    if xs != [] {
      assert xs[0] in multiset(ys) && ys[0] in multiset(xs);
      HeadIsLeast(xs, ys[0]);
      HeadIsLeast(ys, xs[0]);
      LexTotal(xs[0], ys[0]);
      assert xs[0] == ys[0];
      Rest(xs);
      Rest(ys);
      SortedUnique(xs[1..], ys[1..]);
    }
  }

  lemma HeadIsLeast(xs: seq<string>, x: string)
    requires Sorted(xs) && x in xs
    ensures LexLe(xs[0], x)
  {
    LexTotal(x, x);
    hide LexLe;
  }

  lemma Rest(xs: seq<string>)
    requires xs != []
    ensures xs == [xs[0]] + xs[1..] && multiset(xs[1..]) == multiset(xs) - multiset{xs[0]}
    ensures Sorted(xs) ==> Sorted(xs[1..])
  {
    hide LexLe;
    assert xs == [xs[0]] + xs[1..];
  }

  function Insert(x: string, xs: seq<string>): seq<string> {
    if xs == [] then [x]
    else if LexLe(x, xs[0]) then [x] + xs
    else [xs[0]] + Insert(x, xs[1..])
  }

  function Sort(xs: seq<string>): seq<string> {
    if xs == [] then [] else Insert(xs[0], Sort(xs[1..]))
  }

  lemma {:induction false} InsertSorted(x: string, xs: seq<string>)
    requires Sorted(xs)
    ensures Sorted(Insert(x, xs)) && multiset(Insert(x, xs)) == multiset{x} + multiset(xs)
  {
    hide LexLe;
    if xs == [] {
    } else if LexLe(x, xs[0]) {
      forall j | 0 <= j < |xs| ensures LexLe(x, xs[j]) {
        if j > 0 {
          LexTrans(x, xs[0], xs[j]);
        }
      }
    } else {
      LexTotal(x, xs[0]);
      InsertSorted(x, xs[1..]);
      var rest := Insert(x, xs[1..]);
      assert xs == [xs[0]] + xs[1..];
      forall j | 0 <= j < |rest| ensures LexLe(xs[0], rest[j]) {
        assert rest[j] in multiset(rest);
        if rest[j] != x {
          assert rest[j] in multiset(xs[1..]);
        }
      }
    }
  }

  lemma {:induction false} SortSorts(xs: seq<string>)
    ensures Sorted(Sort(xs)) && multiset(Sort(xs)) == multiset(xs)
  {
    hide LexLe, Insert, Sorted;
    if xs == [] {
      SortedEmpty();
    } else {
      SortSorts(xs[1..]);
      InsertSorted(xs[0], Sort(xs[1..]));
      assert xs == [xs[0]] + xs[1..];
    }
  }

  lemma SortedEmpty()
    ensures Sorted([])
  {
  }

  /** Any sorting procedure gives the same result. */
  lemma SortedIsSort(xs: seq<string>, ys: seq<string>)
    requires Sorted(ys) && multiset(ys) == multiset(xs)
    ensures ys == Sort(xs)
  {
    SortSorts(xs);
    SortedUnique(ys, Sort(xs));
  }

  /** In place, by insertion. */
  method SortStrings(a: array<string>)
    modifies a
    ensures Sorted(a[..]) && multiset(a[..]) == multiset(old(a[..]))
  {
    hide LexLe;
    SortedEmpty();
    for n := 0 to a.Length
      invariant Sorted(a[..n])
      invariant multiset(a[..]) == multiset(old(a[..]))
    {
      SinkInto(a, n);
    }
    assert a[..a.Length] == a[..];
  }

  /** Sorted around position k, whose item is at most all that follow it. */
  predicate Sinking(xs: seq<string>, k: nat) {
    && k < |xs|
    && (forall i, j :: 0 <= i < j < |xs| && j != k ==> LexLe(xs[i], xs[j]))
    && (forall j :: k < j < |xs| ==> LexLe(xs[k], xs[j]))
  }

  function Swapped(xs: seq<string>, i: nat, j: nat): seq<string>
    requires i < |xs| && j < |xs|
  {
    xs[i := xs[j]][j := xs[i]]
  }

  lemma SinkStep(xs: seq<string>, k: nat)
    requires 0 < k && Sinking(xs, k) && !LexLe(xs[k - 1], xs[k])
    ensures Sinking(Swapped(xs, k - 1, k), k - 1)
  {
    LexTotal(xs[k - 1], xs[k]);
    hide LexLe;
  }

  lemma Sunk(xs: seq<string>, k: nat)
    requires Sinking(xs, k) && (k > 0 ==> LexLe(xs[k - 1], xs[k]))
    ensures Sorted(xs)
  {
    hide LexLe;
    forall i | 0 <= i < k ensures LexLe(xs[i], xs[k]) {
      if i < k - 1 {
        LexTrans(xs[i], xs[k - 1], xs[k]);
      }
    }
  }

  lemma StartSinking(xs: seq<string>)
    requires xs != [] && Sorted(xs[..|xs| - 1])
    ensures Sinking(xs, |xs| - 1)
  {
    hide LexLe;
    var front := xs[..|xs| - 1];
    assert forall i :: 0 <= i < |front| ==> xs[i] == front[i];
  }

  /** Moves a[n] down to its place among a[..n]. */
  method SinkInto(a: array<string>, n: nat)
    requires n < a.Length && Sorted(a[..n])
    modifies a
    ensures Sorted(a[..n + 1]) && multiset(a[..]) == multiset(old(a[..]))
  {
    hide LexLe, Sinking, Sorted;
    var k := n;
    assert a[..n + 1][..n] == a[..n];
    StartSinking(a[..n + 1]);
    while k > 0 && !LexLe(a[k - 1], a[k])
      invariant 0 <= k <= n
      invariant Sinking(a[..n + 1], k)
      invariant multiset(a[..]) == multiset(old(a[..]))
    {
      ghost var before := a[..];
      SinkStep(a[..n + 1], k);
      SwapKeeps(before, k - 1, k);
      a[k - 1], a[k] := a[k], a[k - 1];
      assert a[..] == Swapped(before, k - 1, k);
      assert a[..n + 1] == Swapped(before[..n + 1], k - 1, k);
      k := k - 1;
    }
    Sunk(a[..n + 1], k);
  }

  lemma SwapKeeps(s: seq<string>, i: nat, j: nat)
    requires i < |s| && j < |s|
    ensures multiset(Swapped(s, i, j)) == multiset(s)
  {
  }
}
