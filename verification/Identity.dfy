/**
 The re-enrolment identity check: subject alternative names tagged by family, sorted, joined with
 newlines and compared as one string; and exactly what that comparison decides.
 */
module Identity {
  import opened X509
  import opened Sorting

  const DNS := "dns:"
  const IP := "ip:"
  const EMAIL := "email:"
  const URI := "uri:"
  const NEWLINE := "\n"

  function Tagged(tag: string, names: seq<string>): seq<string> {
    if names == [] then [] else [tag + names[0]] + Tagged(tag, names[1..])
  }

  function Items(n: Names): seq<string> {
    Tagged(DNS, n.dns) + Tagged(IP, n.ips) + Tagged(EMAIL, n.emails) + Tagged(URI, n.uris)
  }

  function Join(items: seq<string>): string {
    if items == [] then "" else items[0] + NEWLINE + Join(items[1..])
  }

  function SanString(n: Names): string {
    Join(Sort(Items(n)))
  }

  // -- The loops -----------------------------------------------------------------------

  method SanSet(n: Names) returns (out: string)
    ensures out == SanString(n)
  {
    hide Tagged, Sort, Join;
    var items := AppendTagged([], DNS, n.dns);
    items := AppendTagged(items, IP, n.ips);
    items := AppendTagged(items, EMAIL, n.emails);
    items := AppendTagged(items, URI, n.uris);
    assert items == Items(n) by {
      assert [] + Tagged(DNS, n.dns) == Tagged(DNS, n.dns);
    }
    out := SortAndJoin(items);
  }

  method SortAndJoin(items: seq<string>) returns (out: string)
    ensures out == Join(Sort(items))
  {
    hide Sort, LexLe;
    var a := new string[|items|](i requires 0 <= i < |items| => items[i]);
    assert a[..] == items;
    SortStrings(a);
    SortedIsSort(items, a[..]);
    ghost var sorted := a[..];
    out := "";
    for i := 0 to a.Length
      invariant a[..] == sorted
      invariant Join(sorted) == out + Join(sorted[i..])
    {
      assert sorted[i] == a[i] && sorted[i..][1..] == sorted[i + 1..];
      JoinStep(out, a[i], Join(sorted[i + 1..]));
      out := out + a[i] + NEWLINE;
    }
    assert sorted[a.Length..] == [] && out + "" == out;
  }

  lemma JoinStep(out: string, item: string, rest: string)
    ensures out + (item + NEWLINE + rest) == out + item + NEWLINE + rest
  {
  }

  method AppendTagged(items: seq<string>, tag: string, names: seq<string>) returns (more: seq<string>)
    ensures more == items + Tagged(tag, names)
  {
    more := items;
    for i := 0 to |names|
      invariant items + Tagged(tag, names) == more + Tagged(tag, names[i..])
    {
      assert names[i..][1..] == names[i + 1..];
      assert more + ([tag + names[i]] + Tagged(tag, names[i + 1..]))
             == more + [tag + names[i]] + Tagged(tag, names[i + 1..]);
      more := more + [tag + names[i]];
    }
    assert names[|names|..] == [] && more + [] == more;
  }

  function Example(): Names {
    Names(["b", "a"], ["::1"], ["e@a"], ["u:x"])
  }

  function ExampleSorted(): seq<string> {
    ["dns:a", "dns:b", "email:e@a", "ip:::1", "uri:u:x"]
  }

  /** One string in full: a line an item, the lines in byte order. */
  lemma SanStringExample()
    ensures SanString(Names(["b", "a"], ["::1"], ["e@a"], ["u:x"]))
         == "dns:a\n" + ("dns:b\n" + ("email:e@a\n" + ("ip:::1\n" + "uri:u:x\n")))
  {
    ExampleItems();
    ExampleOrder();
    ExampleJoined();
    ExampleLiterals();
    hide Items, Sort, Join, Sorted, Example, ExampleSorted;
    SortedIsSort(Items(Example()), ExampleSorted());
  }

  lemma ExampleLiterals()
    ensures Example() == Names(["b", "a"], ["::1"], ["e@a"], ["u:x"])
  {
  }

  lemma ExampleItems()
    ensures multiset(Items(Example())) == multiset(ExampleSorted())
  {
    TaggedTwo(DNS, "b", "a");
    TaggedTwo(IP, "::1", "");
    TaggedTwo(EMAIL, "e@a", "");
    TaggedTwo(URI, "u:x", "");
    hide Tagged;
    assert DNS + "b" == "dns:b" && DNS + "a" == "dns:a" && IP + "::1" == "ip:::1";
    assert EMAIL + "e@a" == "email:e@a" && URI + "u:x" == "uri:u:x";
    assert Items(Example()) == ["dns:b", "dns:a", "ip:::1", "email:e@a", "uri:u:x"];
  }

  lemma TaggedTwo(tag: string, x: string, y: string)
    ensures Tagged(tag, [x]) == [tag + x] && Tagged(tag, [x, y]) == [tag + x, tag + y]
  {
    assert [x][1..] == [] && [x, y][1..] == [y] && [y][1..] == [];
    assert Tagged(tag, [x]) == [tag + x] + Tagged(tag, []) && Tagged(tag, [y]) == [tag + y] + Tagged(tag, []);
    assert Tagged(tag, [x, y]) == [tag + x] + Tagged(tag, [y]);
  }

  lemma FirstDecides(x: string, y: string)
    requires x != "" && y != "" && x[0] < y[0]
    ensures LexLe(x, y)
  {
  }

  lemma ExampleOrder()
    ensures Sorted(ExampleSorted())
  {
    var s := ExampleSorted();
    assert LexLe("a", "b");
    SharedStart("dns:", "a", "b");
    assert "dns:" + "a" == s[0] && "dns:" + "b" == s[1];
    hide LexLe;
    forall i, j | 0 <= i < j < |s| ensures LexLe(s[i], s[j]) {
      if j > 1 {
        FirstDecides(s[i], s[j]);
      }
    }
  }

  lemma {:induction false} SharedStart(p: string, x: string, y: string)
    ensures LexLe(x, y) ==> LexLe(p + x, p + y)
  {
    if p == "" {
      assert p + x == x && p + y == y;
    } else {
      SharedStart(p[1..], x, y);
      assert (p + x)[1..] == p[1..] + x && (p + y)[1..] == p[1..] + y;
    }
  }

  lemma JoinFive(a: string, b: string, c: string, d: string, e: string)
    ensures Join([a, b, c, d, e])
         == (a + NEWLINE) + ((b + NEWLINE) + ((c + NEWLINE) + ((d + NEWLINE) + (e + NEWLINE))))
  {
    var s := [a, b, c, d, e];
    assert s[1..] == [b, c, d, e] && [b, c, d, e][1..] == [c, d, e] && [c, d, e][1..] == [d, e];
    assert [d, e][1..] == [e] && [e][1..] == [];
    assert Join([e]) == e + NEWLINE + "" == e + NEWLINE;
    assert Join([d, e]) == (d + NEWLINE) + (e + NEWLINE);
    assert Join([c, d, e]) == (c + NEWLINE) + ((d + NEWLINE) + (e + NEWLINE));
    assert Join([b, c, d, e]) == (b + NEWLINE) + ((c + NEWLINE) + ((d + NEWLINE) + (e + NEWLINE)));
  }

  lemma ExampleJoined()
    ensures Join(ExampleSorted()) == "dns:a\n" + ("dns:b\n" + ("email:e@a\n" + ("ip:::1\n" + "uri:u:x\n")))
  {
    JoinFive("dns:a", "dns:b", "email:e@a", "ip:::1", "uri:u:x");
    hide Join;
    assert "dns:a" + NEWLINE == "dns:a\n" && "dns:b" + NEWLINE == "dns:b\n" && "email:e@a" + NEWLINE == "email:e@a\n";
    assert "ip:::1" + NEWLINE == "ip:::1\n" && "uri:u:x" + NEWLINE == "uri:u:x\n";
  }

  predicate Matches(peer: Certificate, csr: Request) {
    peer.commonName == csr.commonName && SanString(peer.names) == SanString(csr.names)
  }

  method IdentitiesMatch(peer: Certificate, csr: Request) returns (same: bool)
    ensures same <==> Matches(peer, csr)
  {
    if peer.commonName != csr.commonName {
      return false;
    }
    var theirs := SanSet(peer.names);
    var asked := SanSet(csr.names);
    same := theirs == asked;
  }

  // -- Families -----------------------------------------------------------------------

  /** The same names in each family, in any order, each as often. */
  predicate SameFamilies(a: Names, b: Names) {
    && multiset(a.dns) == multiset(b.dns)
    && multiset(a.ips) == multiset(b.ips)
    && multiset(a.emails) == multiset(b.emails)
    && multiset(a.uris) == multiset(b.uris)
  }

  function CountTagged(tag: string, names: seq<string>, w: string): nat {
    if tag <= w then multiset(names)[w[|tag|..]] else 0
  }

  lemma {:induction false} TaggedCount(tag: string, names: seq<string>, w: string)
    ensures multiset(Tagged(tag, names))[w] == CountTagged(tag, names, w)
  {
    if names != [] {
      TaggedCount(tag, names[1..], w);
      assert names == [names[0]] + names[1..];
      assert w == tag + names[0] <==> tag <= w && w[|tag|..] == names[0];
    }
  }

  lemma ItemsCount(n: Names, w: string)
    ensures multiset(Items(n))[w] == CountTagged(DNS, n.dns, w) + CountTagged(IP, n.ips, w)
                                     + CountTagged(EMAIL, n.emails, w) + CountTagged(URI, n.uris, w)
  {
    hide Tagged, CountTagged;
    TaggedCount(DNS, n.dns, w);
    TaggedCount(IP, n.ips, w);
    TaggedCount(EMAIL, n.emails, w);
    TaggedCount(URI, n.uris, w);
  }

  /** No tag begins another, so an item shows its family. */
  lemma TagsApart(n: Names, s: string)
    ensures CountTagged(DNS, n.dns, DNS + s) == multiset(Items(n))[DNS + s] == multiset(n.dns)[s]
    ensures CountTagged(IP, n.ips, IP + s) == multiset(Items(n))[IP + s] == multiset(n.ips)[s]
    ensures CountTagged(EMAIL, n.emails, EMAIL + s) == multiset(Items(n))[EMAIL + s] == multiset(n.emails)[s]
    ensures CountTagged(URI, n.uris, URI + s) == multiset(Items(n))[URI + s] == multiset(n.uris)[s]
  {
    ItemsCount(n, DNS + s);
    ItemsCount(n, IP + s);
    ItemsCount(n, EMAIL + s);
    ItemsCount(n, URI + s);
    assert (DNS + s)[|DNS|..] == (IP + s)[|IP|..] == (EMAIL + s)[|EMAIL|..] == (URI + s)[|URI|..] == s;
    assert (DNS + s)[0] == 'd' && (IP + s)[0] == 'i' && (EMAIL + s)[0] == 'e' && (URI + s)[0] == 'u';
    hide Items;
  }

  lemma FamiliesByItems(a: Names, b: Names)
    ensures SameFamilies(a, b) <==> multiset(Items(a)) == multiset(Items(b))
  {
    hide Items, CountTagged;
    if multiset(Items(a)) == multiset(Items(b)) {
      forall s ensures multiset(a.dns)[s] == multiset(b.dns)[s] && multiset(a.ips)[s] == multiset(b.ips)[s]
                       && multiset(a.emails)[s] == multiset(b.emails)[s] && multiset(a.uris)[s] == multiset(b.uris)[s] {
        TagsApart(a, s);
        TagsApart(b, s);
      }
    }
    if SameFamilies(a, b) {
      forall w ensures multiset(Items(a))[w] == multiset(Items(b))[w] {
        ItemsCount(a, w);
        ItemsCount(b, w);
        SameCounts(a, b, w);
      }
    }
  }

  lemma SameCounts(a: Names, b: Names, w: string)
    requires SameFamilies(a, b)
    ensures CountTagged(DNS, a.dns, w) == CountTagged(DNS, b.dns, w)
            && CountTagged(IP, a.ips, w) == CountTagged(IP, b.ips, w)
    ensures CountTagged(EMAIL, a.emails, w) == CountTagged(EMAIL, b.emails, w)
            && CountTagged(URI, a.uris, w) == CountTagged(URI, b.uris, w)
  {
  }

  /** Order never matters. */
  lemma SameFamiliesSameString(a: Names, b: Names)
    requires SameFamilies(a, b)
    ensures SanString(a) == SanString(b)
  {
    hide Items, SameFamilies, Sort, LexLe;
    FamiliesByItems(a, b);
    SortSorts(Items(a));
    SortedIsSort(Items(b), Sort(Items(a)));
  }

  // -- Names without newlines --------------------------------------------------------------

  predicate OneLine(s: string) {
    '\n' !in s
  }

  predicate AllOneLine(items: seq<string>) {
    forall s :: s in items ==> OneLine(s)
  }

  predicate NewlineFree(n: Names) {
    AllOneLine(n.dns) && AllOneLine(n.ips) && AllOneLine(n.emails) && AllOneLine(n.uris)
  }

  lemma LineEnds(a: string, s: string)
    requires OneLine(a)
    ensures var x := a + NEWLINE + s; x[|a|] == '\n' && x[..|a|] == a && x[|a| + 1..] == s
    ensures forall i :: 0 <= i < |a| ==> (a + NEWLINE + s)[i] != '\n'
  {
  }

  lemma SplitLine(a: string, s: string, b: string, t: string)
    requires OneLine(a) && OneLine(b) && a + NEWLINE + s == b + NEWLINE + t
    ensures a == b && s == t
  {
    LineEnds(a, s);
    LineEnds(b, t);
    assert |a| <= |b| && |b| <= |a|;
  }

  lemma {:induction false} JoinInjective(xs: seq<string>, ys: seq<string>)
    requires AllOneLine(xs) && AllOneLine(ys) && Join(xs) == Join(ys)
    ensures xs == ys
  {
    hide OneLine;
    if xs != [] && ys != [] {
      SplitLine(xs[0], Join(xs[1..]), ys[0], Join(ys[1..]));
      JoinInjective(xs[1..], ys[1..]);
      assert xs == [xs[0]] + xs[1..] && ys == [ys[0]] + ys[1..];
    }
  }

  lemma {:induction false} TaggedOneLine(tag: string, names: seq<string>)
    requires OneLine(tag) && AllOneLine(names)
    ensures AllOneLine(Tagged(tag, names))
  {
    if names != [] {
      TaggedOneLine(tag, names[1..]);
      assert names[0] in names && OneLine(names[0]);
      assert OneLine(tag + names[0]);
      assert Tagged(tag, names) == [tag + names[0]] + Tagged(tag, names[1..]);
    }
  }

  lemma SortedOneLine(n: Names)
    requires NewlineFree(n)
    ensures AllOneLine(Sort(Items(n)))
  {
    TaggedOneLine(DNS, n.dns);
    TaggedOneLine(IP, n.ips);
    TaggedOneLine(EMAIL, n.emails);
    TaggedOneLine(URI, n.uris);
    hide Tagged, OneLine, Sort, LexLe;
    SortSorts(Items(n));
    forall s | s in Sort(Items(n)) ensures OneLine(s) {
      assert s in multiset(Sort(Items(n)));
      assert s in Items(n);
    }
  }

  /** On names of one line each, the comparison decides equality of the four multisets. */
  lemma SanStringExact(a: Names, b: Names)
    requires NewlineFree(a) && NewlineFree(b)
    ensures SanString(a) == SanString(b) <==> SameFamilies(a, b)
  {
    hide Items, SameFamilies, Sort, LexLe, NewlineFree;
    if SameFamilies(a, b) {
      SameFamiliesSameString(a, b);
    }
    if SanString(a) == SanString(b) {
      SortedOneLine(a);
      SortedOneLine(b);
      JoinInjective(Sort(Items(a)), Sort(Items(b)));
      SortSorts(Items(a));
      SortSorts(Items(b));
      FamiliesByItems(a, b);
    }
  }

  /** What the re-enrolment check accepts. */
  lemma MatchesExact(peer: Certificate, csr: Request)
    requires NewlineFree(peer.names) && NewlineFree(csr.names)
    ensures Matches(peer, csr) <==> peer.commonName == csr.commonName && SameFamilies(peer.names, csr.names)
  {
    SanStringExact(peer.names, csr.names);
  }

  // -- Any names ------------------------------------------------------------------------------

  lemma {:induction false} InsertJoinLength(x: string, xs: seq<string>)
    ensures |Join(Insert(x, xs))| == |x| + 1 + |Join(xs)|
  {
    hide LexLe;
    if xs != [] && !LexLe(x, xs[0]) {
      InsertJoinLength(x, xs[1..]);
    }
  }

  lemma {:induction false} SortJoinLength(xs: seq<string>)
    ensures |Join(Sort(xs))| == |Join(xs)|
  {
    hide Insert;
    if xs != [] {
      SortJoinLength(xs[1..]);
      InsertJoinLength(xs[0], Sort(xs[1..]));
    }
  }

  lemma {:induction false} JoinConcat(xs: seq<string>, ys: seq<string>)
    ensures Join(xs + ys) == Join(xs) + Join(ys)
  {
    if xs == [] {
      assert xs + ys == ys;
    } else {
      JoinConcat(xs[1..], ys);
      assert (xs + ys)[1..] == xs[1..] + ys;
      assert xs[0] + NEWLINE + (Join(xs[1..]) + Join(ys)) == xs[0] + NEWLINE + Join(xs[1..]) + Join(ys);
    }
  }

  lemma TaggedCons(tag: string, d: string, names: seq<string>)
    ensures Tagged(tag, [d] + names) == [tag + d] + Tagged(tag, names)
  {
    assert ([d] + names)[1..] == names;
  }

  predicate HasTag(item: string) {
    DNS <= item || IP <= item || EMAIL <= item || URI <= item
  }

  predicate AllTagged(items: seq<string>) {
    forall i :: 0 <= i < |items| ==> HasTag(items[i])
  }

  /** The names whose items are these. */
  function NamesOf(items: seq<string>): Names {
    if items == [] then Names([], [], [], []) else AddNamed(items[0], NamesOf(items[1..]))
  }

  lemma {:induction false} ItemsOfNames(items: seq<string>)
    requires AllTagged(items)
    ensures multiset(Items(NamesOf(items))) == multiset(items)
  {
    if items != [] {
      var n, x := NamesOf(items[1..]), items[0];
      hide Items, Tagged;
      ItemsOfNames(items[1..]);
      assert items == [x] + items[1..];
      assert HasTag(x);
      AddName(x, n);
    }
  }

  function AddNamed(x: string, n: Names): Names {
    if DNS <= x then n.(dns := [x[4..]] + n.dns)
    else if IP <= x then n.(ips := [x[3..]] + n.ips)
    else if EMAIL <= x then n.(emails := [x[6..]] + n.emails)
    else if URI <= x then n.(uris := [x[4..]] + n.uris)
    else n
  }

  lemma ItemsTogether(n: Names)
    ensures multiset(Items(n)) == multiset(Tagged(DNS, n.dns)) + multiset(Tagged(IP, n.ips))
                                  + multiset(Tagged(EMAIL, n.emails)) + multiset(Tagged(URI, n.uris))
  {
    hide Tagged;
  }

  lemma TaggedMore(tag: string, x: string, names: seq<string>)
    requires tag <= x
    ensures multiset(Tagged(tag, [x[|tag|..]] + names)) == multiset{x} + multiset(Tagged(tag, names))
  {
    assert tag + x[|tag|..] == x;
    TaggedCons(tag, x[|tag|..], names);
  }

  lemma AddName(x: string, n: Names)
    requires HasTag(x)
    ensures multiset(Items(AddNamed(x, n))) == multiset{x} + multiset(Items(n))
  {
    hide Tagged, Items;
    ItemsTogether(n);
    ItemsTogether(AddNamed(x, n));
    if DNS <= x {
      TaggedMore(DNS, x, n.dns);
    } else if IP <= x {
      TaggedMore(IP, x, n.ips);
    } else if EMAIL <= x {
      TaggedMore(EMAIL, x, n.emails);
    } else {
      TaggedMore(URI, x, n.uris);
    }
  }

  lemma SortDependsOnItems(xs: seq<string>, ys: seq<string>)
    requires multiset(xs) == multiset(ys)
    ensures Sort(xs) == Sort(ys)
  {
    hide Sort, LexLe;
    SortSorts(xs);
    SortedIsSort(ys, Sort(xs));
  }

  lemma OneMoreItem(x: string, n: Names)
    requires HasTag(x)
    ensures |SanString(AddNamed(x, n))| == |SanString(n)| + |x| + 1
  {
    hide Items, Sort, AddNamed, HasTag;
    var m := AddNamed(x, n);
    AddName(x, n);
    assert multiset([x] + Items(n)) == multiset(Items(m));
    SortDependsOnItems([x] + Items(n), Items(m));
    SortJoinLength([x] + Items(n));
    SortJoinLength(Items(n));
    assert ([x] + Items(n))[1..] == Items(n);
  }

  lemma TagNames(d: string, n: Names)
    ensures AddNamed(DNS + d, n) == n.(dns := [d] + n.dns) && AddNamed(IP + d, n) == n.(ips := [d] + n.ips)
    ensures AddNamed(EMAIL + d, n) == n.(emails := [d] + n.emails) && AddNamed(URI + d, n) == n.(uris := [d] + n.uris)
  {
    assert (DNS + d)[0] == 'd' && (IP + d)[0] == 'i' && (EMAIL + d)[0] == 'e' && (URI + d)[0] == 'u';
    assert (DNS + d)[|DNS|..] == (IP + d)[|IP|..] == (EMAIL + d)[|EMAIL|..] == (URI + d)[|URI|..] == d;
  }

  lemma Rotate(names: seq<string>, d: string)
    ensures multiset(names + [d]) == multiset([d] + names)
  {
  }

  /** One name more in any family, be it a repeated one, is seen: the comparison counts. */
  lemma RepetitionCounts(n: Names, d: string)
    ensures SanString(n.(dns := n.dns + [d])) != SanString(n)
    ensures SanString(n.(ips := n.ips + [d])) != SanString(n)
    ensures SanString(n.(emails := n.emails + [d])) != SanString(n)
    ensures SanString(n.(uris := n.uris + [d])) != SanString(n)
  {
    hide SanString, AddNamed;
    TagNames(d, n);
    OneMoreItem(DNS + d, n);
    OneMoreItem(IP + d, n);
    OneMoreItem(EMAIL + d, n);
    OneMoreItem(URI + d, n);
    Rotate(n.dns, d);
    Rotate(n.ips, d);
    Rotate(n.emails, d);
    Rotate(n.uris, d);
    SameFamiliesSameString(AddNamed(DNS + d, n), n.(dns := n.dns + [d]));
    SameFamiliesSameString(AddNamed(IP + d, n), n.(ips := n.ips + [d]));
    SameFamiliesSameString(AddNamed(EMAIL + d, n), n.(emails := n.emails + [d]));
    SameFamiliesSameString(AddNamed(URI + d, n), n.(uris := n.uris + [d]));
  }
}
