/**
 Which names the comparison string stands for, whatever the names contain.  Addresses and URIs
 come out of a printer that never writes a newline; DNS names and email addresses are taken from the certificate
 as they are.
 */
module IdentityReadings {
  import opened X509
  import opened Sorting
  import opened Identity

  // What the printed form of an address and of a URI can be.
  datatype Forms = Forms(ip: string -> bool, uri: string -> bool)

  ghost predicate OneLineForms(f: Forms) {
    forall s: string :: f.ip(s) || f.uri(s) ==> OneLine(s)
  }

  predicate PrintedAs(f: Forms, n: Names) {
    (forall s :: s in n.ips ==> f.ip(s)) && (forall s :: s in n.uris ==> f.uri(s))
  }

  /** An item that some printed names can have. */
  predicate ItemAs(f: Forms, item: string) {
    HasTag(item) && (IP <= item ==> f.ip(item[3..])) && (URI <= item ==> f.uri(item[4..]))
  }

  predicate AllAs(f: Forms, items: seq<string>) {
    forall i :: 0 <= i < |items| ==> ItemAs(f, items[i])
  }

  /** A DNS name or an email address: the families that sort first and may hold anything. */
  predicate Free(item: string) {
    DNS <= item || EMAIL <= item
  }

  lemma FreeFirst(x: string, y: string)
    requires HasTag(x) && HasTag(y)
    ensures x != "" && (Free(x) <==> x[0] < 'i')
    ensures LexLe(x, y) && Free(y) ==> Free(x)
    ensures Free(x) && !Free(y) ==> LexLe(x, y)
  {
  }

  lemma FreeItem(f: Forms, x: string, more: string)
    requires HasTag(x) && Free(x)
    ensures Free(x + more) && ItemAs(f, x + more)
  {
    assert (x + more)[0] == x[0];
  }

  lemma BoundItem(f: Forms, x: string)
    requires OneLineForms(f) && ItemAs(f, x) && !Free(x)
    ensures OneLine(x)
  {
    var tag := if IP <= x then IP else URI;
    var rest := x[|tag|..];
    assert OneLine(rest);
    assert x == tag + rest;
    assert OneLine(tag);
  }

  // -- Items of printed names ------------------------------------------------------------

  lemma {:induction false} TaggedAs(f: Forms, tag: string, names: seq<string>)
    requires forall s :: s in names ==> ItemAs(f, tag + s)
    ensures AllAs(f, Tagged(tag, names))
  {
    hide ItemAs;
    if names != [] {
      assert names[0] in names;
      TaggedAs(f, tag, names[1..]);
    }
  }

  lemma NameAs(f: Forms, s: string)
    ensures ItemAs(f, DNS + s) && ItemAs(f, EMAIL + s)
    ensures ItemAs(f, IP + s) <==> f.ip(s)
    ensures ItemAs(f, URI + s) <==> f.uri(s)
  {
    assert (DNS + s)[0] == 'd' && (IP + s)[0] == 'i' && (EMAIL + s)[0] == 'e' && (URI + s)[0] == 'u';
    assert (IP + s)[|IP|..] == (URI + s)[|URI|..] == s;
  }

  lemma SortedAs(f: Forms, n: Names)
    requires PrintedAs(f, n)
    ensures AllAs(f, Sort(Items(n)))
  {
    hide Tagged, ItemAs, Sort, LexLe;
    forall s: string
      ensures ItemAs(f, DNS + s) && ItemAs(f, EMAIL + s)
      ensures (f.ip(s) ==> ItemAs(f, IP + s)) && (f.uri(s) ==> ItemAs(f, URI + s))
    {
      NameAs(f, s);
    }
    TaggedAs(f, DNS, n.dns);
    TaggedAs(f, IP, n.ips);
    TaggedAs(f, EMAIL, n.emails);
    TaggedAs(f, URI, n.uris);
    var s := Sort(Items(n));
    SortSorts(Items(n));
    forall i | 0 <= i < |s| ensures ItemAs(f, s[i]) {
      assert s[i] in multiset(s);
      assert s[i] in Items(n);
    }
  }

  lemma {:induction false} NamesAs(f: Forms, items: seq<string>)
    requires AllAs(f, items)
    ensures PrintedAs(f, NamesOf(items))
  {
    if items != [] {
      NamesAs(f, items[1..]);
      assert ItemAs(f, items[0]);
    }
  }

  /** A sorted list of such items is the list behind some printed names. */
  lemma SortedIsReached(f: Forms, items: seq<string>)
    requires Sorted(items) && AllAs(f, items)
    ensures PrintedAs(f, NamesOf(items)) && Sort(Items(NamesOf(items))) == items
  {
    NamesAs(f, items);
    assert AllTagged(items);
    hide Items, NamesOf, Sort, LexLe, HasTag;
    ItemsOfNames(items);
    SortedIsSort(Items(NamesOf(items)), items);
  }

  // -- One string, several readings ---------------------------------------------------------

  /** The string of a comes of no printed names with other families. */
  ghost predicate Determined(f: Forms, a: Names) {
    forall b: Names :: PrintedAs(f, b) && SanString(b) == SanString(a) ==> SameFamilies(a, b)
  }

  /** A newline between two items in order. */
  predicate CutAt(f: Forms, item: string, k: int) {
    && 0 <= k < |item| && item[k] == '\n'
    && ItemAs(f, item[..k]) && ItemAs(f, item[k + 1..]) && LexLe(item[..k], item[k + 1..])
  }

  predicate Cuttable(f: Forms, item: string) {
    exists k: int :: 0 <= k < |item| && CutAt(f, item, k)
  }

  /**
   Exactly the printed names whose string stands for no others: those without DNS names and email
   addresses, and a single name that cannot be cut in two.
   */
  lemma DeterminedExactly(f: Forms, a: Names)
    requires OneLineForms(f) && PrintedAs(f, a)
    ensures Determined(f, a) <==> (a.dns == [] && a.emails == []) || (|Items(a)| == 1 && !Cuttable(f, Items(a)[0]))
  {
    hide SameFamilies, Items, Cuttable, SanString, OneLineForms, PrintedAs;
    NoFreeItems(a);
    if a.dns == [] && a.emails == [] {
      forall b: Names | PrintedAs(f, b) && SanString(b) == SanString(a) ensures SameFamilies(a, b) {
        BoundReading(f, a, b);
      }
    } else if |Items(a)| >= 2 {
      GlueAll(f, a);
    } else if Cuttable(f, Items(a)[0]) {
      Cut(f, a);
    } else {
      forall b: Names | PrintedAs(f, b) && SanString(b) == SanString(a) ensures SameFamilies(a, b) {
        OneReading(f, a, b);
      }
    }
  }

  lemma {:induction false} TaggedFree(tag: string, names: seq<string>)
    ensures |Tagged(tag, names)| == |names|
    ensures forall x :: x in Tagged(tag, names) ==> tag <= x
  {
    if names != [] {
      TaggedFree(tag, names[1..]);
    }
  }

  lemma NoFreeItems(a: Names)
    ensures a.dns == [] && a.emails == [] <==> forall x :: x in Items(a) ==> !Free(x)
    ensures a.dns != [] || a.emails != [] ==> Items(a) != []
  {
    TaggedFree(DNS, a.dns);
    TaggedFree(IP, a.ips);
    TaggedFree(EMAIL, a.emails);
    TaggedFree(URI, a.uris);
    hide Tagged, Free;
    if a.dns != [] {
      FreeOne(Tagged(DNS, a.dns)[0]);
      assert Tagged(DNS, a.dns)[0] in Items(a);
    } else if a.emails != [] {
      FreeOne(Tagged(EMAIL, a.emails)[0]);
      assert Tagged(EMAIL, a.emails)[0] in Items(a);
    } else {
      forall x | x in Items(a) ensures !Free(x) {
        assert x in Tagged(IP, a.ips) || x in Tagged(URI, a.uris);
        FreeOne(x);
      }
    }
  }

  lemma FreeOne(x: string)
    ensures DNS <= x || EMAIL <= x ==> Free(x)
    ensures IP <= x || URI <= x ==> !Free(x)
  {
    assert DNS[0] == 'd' && EMAIL[0] == 'e' && IP[0] == 'i' && URI[0] == 'u';
  }

  // -- Addresses and URIs only ---------------------------------------------------------------

  lemma {:induction false} BoundLines(f: Forms, s: seq<string>, t: seq<string>)
    requires OneLineForms(f) && AllAs(f, s) && AllAs(f, t) && Join(s) == Join(t)
    requires forall i :: 0 <= i < |s| ==> !Free(s[i])
    ensures s == t
  {
    hide ItemAs, OneLineForms, Free;
    if s != [] && t != [] {
      var x, y := s[0], t[0];
      BothTagged(f, x, y);
      assert Join(s)[0] == x[0] && Join(t)[0] == y[0];
      BoundItem(f, x);
      BoundItem(f, y);
      SplitLine(x, Join(s[1..]), y, Join(t[1..]));
      BoundLines(f, s[1..], t[1..]);
      assert s == [x] + s[1..] && t == [y] + t[1..];
    }
  }

  lemma BothTagged(f: Forms, x: string, y: string)
    requires ItemAs(f, x) && ItemAs(f, y)
    ensures x != "" && y != "" && (x[0] == y[0] ==> Free(x) == Free(y))
  {
    FreeFirst(x, y);
    FreeFirst(y, x);
  }

  lemma BoundReading(f: Forms, a: Names, b: Names)
    requires OneLineForms(f) && PrintedAs(f, a) && PrintedAs(f, b) && SanString(b) == SanString(a)
    requires forall x :: x in Items(a) ==> !Free(x)
    ensures SameFamilies(a, b)
  {
    hide Items, SameFamilies, LexLe, Sort, ItemAs, PrintedAs, OneLineForms, Free;
    var s, t := Sort(Items(a)), Sort(Items(b));
    SortSorts(Items(a));
    SortSorts(Items(b));
    SortedAs(f, a);
    SortedAs(f, b);
    forall i | 0 <= i < |s| ensures !Free(s[i]) {
      assert s[i] in multiset(s);
      assert s[i] in Items(a);
    }
    BoundLines(f, s, t);
    FamiliesByItems(a, b);
  }

  /** A certificate naming only addresses and URIs is matched by exactly its own identity, whatever is asked for. */
  lemma AddressesAndUrisExact(f: Forms, peer: Certificate, csr: Request)
    requires OneLineForms(f) && PrintedAs(f, peer.names) && PrintedAs(f, csr.names)
    requires peer.names.dns == [] && peer.names.emails == []
    ensures Matches(peer, csr) <==> peer.commonName == csr.commonName && SameFamilies(peer.names, csr.names)
  {
    hide SanString, SameFamilies, PrintedAs, OneLineForms, Items;
    NoFreeItems(peer.names);
    if SanString(peer.names) == SanString(csr.names) {
      BoundReading(f, peer.names, csr.names);
    }
    if SameFamilies(peer.names, csr.names) {
      SameFamiliesSameString(peer.names, csr.names);
    }
  }

  // -- Several names, one of them free ---------------------------------------------------------

  /** All but the last newline. */
  lemma {:induction false} JoinEnds(s: seq<string>) returns (glued: string)
    requires s != []
    ensures Join(s) == glued + NEWLINE && s[0] <= glued
  {
    if |s| == 1 {
      glued := s[0];
      assert s[1..] == [] && s[0] + NEWLINE + "" == s[0] + NEWLINE;
    } else {
      var rest := JoinEnds(s[1..]);
      glued := s[0] + NEWLINE + rest;
      assert s[0] + NEWLINE + (rest + NEWLINE) == glued + NEWLINE;
    }
  }

  lemma JoinOne(x: string)
    ensures Join([x]) == x + NEWLINE
  {
    assert [x][1..] == [] && x + NEWLINE + "" == x + NEWLINE;
  }

  lemma FirstIsFree(f: Forms, a: Names)
    requires PrintedAs(f, a) && (a.dns != [] || a.emails != [])
    ensures var s := Sort(Items(a)); s != [] && Free(s[0]) && |s| == |Items(a)|
  {
    hide Items, LexLe, Sort, ItemAs, PrintedAs, Free;
    var s := Sort(Items(a));
    NoFreeItems(a);
    SortSorts(Items(a));
    SortedAs(f, a);
    assert |s| == |multiset(s)| == |multiset(Items(a))| == |Items(a)|;
    var x :| x in Items(a) && Free(x);
    assert x in multiset(s);
    var i :| 0 <= i < |s| && s[i] == x;
    assert ItemAs(f, s[0]) && ItemAs(f, s[i]);
    FreeBefore(f, s[0], s[i]);
    assert i > 0 ==> LexLe(s[0], s[i]);
  }

  lemma FreeBefore(f: Forms, x: string, y: string)
    requires ItemAs(f, x) && ItemAs(f, y)
    ensures LexLe(x, y) && Free(y) ==> Free(x)
    ensures Free(x) && !Free(y) ==> LexLe(x, y)
  {
    FreeFirst(x, y);
  }

  lemma SortedOne(x: string)
    ensures Sorted([x])
  {
  }

  /** The whole string reads as one name. */
  lemma GlueAll(f: Forms, a: Names)
    requires PrintedAs(f, a) && (a.dns != [] || a.emails != []) && |Items(a)| >= 2
    ensures !Determined(f, a)
  {
    hide Items, SameFamilies, Sort, NamesOf, ItemAs, PrintedAs, Free, Join, Sorted;
    var s := Sort(Items(a));
    FirstIsFree(f, a);
    SortedAs(f, a);
    var glued := JoinEnds(s);
    assert ItemAs(f, s[0]);
    Starts(f, s[0], glued);
    SortedOne(glued);
    SortedIsReached(f, [glued]);
    JoinOne(glued);
    OtherReading(f, a, [glued]);
  }

  lemma Starts(f: Forms, x: string, y: string)
    requires ItemAs(f, x) && Free(x) && x <= y
    ensures Free(y) && ItemAs(f, y)
  {
    assert y == x + y[|x|..];
    FreeItem(f, x, y[|x|..]);
  }

  /** Another number of items with the same string. */
  lemma OtherReading(f: Forms, a: Names, t: seq<string>)
    requires PrintedAs(f, NamesOf(t)) && Sort(Items(NamesOf(t))) == t
    requires Join(t) == SanString(a) && |t| != |Items(a)|
    ensures !Determined(f, a)
  {
    hide Items, SameFamilies, Sort, NamesOf, PrintedAs, Join, LexLe, Sorted;
    var b := NamesOf(t);
    SortSorts(Items(b));
    assert |Items(b)| == |multiset(Items(b))| == |multiset(t)| == |t|;
    assert |Items(a)| == |multiset(Items(a))|;
    FamiliesByItems(a, b);
    assert SanString(b) == SanString(a) && !SameFamilies(a, b);
  }

  // -- A single name ------------------------------------------------------------------------------

  lemma SortShort(items: seq<string>)
    requires |items| <= 1
    ensures Sort(items) == items
  {
    hide LexLe;
  }

  lemma JoinPair(x: string, y: string)
    ensures Join([x, y]) == x + NEWLINE + y + NEWLINE
  {
    assert [x, y][1..] == [y] && [y][1..] == [];
    assert Join([y]) == y + NEWLINE + "";
    assert x + NEWLINE + (y + NEWLINE + "") == x + NEWLINE + y + NEWLINE;
  }

  lemma Cut(f: Forms, a: Names)
    requires PrintedAs(f, a) && |Items(a)| == 1 && Cuttable(f, Items(a)[0])
    ensures !Determined(f, a)
  {
    var item := Items(a)[0];
    var k: int :| 0 <= k < |item| && CutAt(f, item, k);
    var t := [item[..k], item[k + 1..]];
    CutInTwo(f, item, k);
    hide Items, Sort, NamesOf, Join, CutAt, Cuttable, Sorted, AllAs, PrintedAs;
    SortShort(Items(a));
    assert Items(a) == [item];
    SortedIsReached(f, t);
    OtherReading(f, a, t);
  }

  lemma CutInTwo(f: Forms, item: string, k: int)
    requires 0 <= k < |item| && CutAt(f, item, k)
    ensures Sorted([item[..k], item[k + 1..]]) && AllAs(f, [item[..k], item[k + 1..]])
    ensures Join([item[..k], item[k + 1..]]) == Join([item])
  {
    hide LexLe, ItemAs, Join;
    JoinPair(item[..k], item[k + 1..]);
    JoinOne(item);
    assert item == item[..k] + NEWLINE + item[k + 1..];
  }

  lemma OneReading(f: Forms, a: Names, b: Names)
    requires PrintedAs(f, a) && PrintedAs(f, b) && SanString(b) == SanString(a)
    requires |Items(a)| == 1 && !Cuttable(f, Items(a)[0]) && (a.dns != [] || a.emails != [])
    ensures SameFamilies(a, b)
  {
    hide Items, SameFamilies, LexLe, Sort, ItemAs, Cuttable, PrintedAs, Free;
    var item, t := Items(a)[0], Sort(Items(b));
    FirstIsFree(f, a);
    SortSorts(Items(b));
    SortedAs(f, a);
    SortedAs(f, b);
    SortShort(Items(a));
    FamiliesByItems(a, b);
    JoinOne(item);
    assert Items(a) == [item] && ItemAs(f, Sort(Items(a))[0]);
    if |t| == 1 {
      JoinOne(t[0]);
      assert t == [t[0]];
      assert (item + NEWLINE)[..|item|] == item && (t[0] + NEWLINE)[..|t[0]|] == t[0];
    } else if |t| >= 2 {
      ItemIsCuttable(f, item, t);
    }
  }

  lemma SameEnd(x: string, y: string)
    requires x + NEWLINE == y + NEWLINE
    ensures x == y
  {
    assert (x + NEWLINE)[..|x|] == x && (y + NEWLINE)[..|y|] == y;
  }

  lemma CutHere(f: Forms, item: string, x: string, y: string)
    requires item == x + NEWLINE + y && ItemAs(f, x) && ItemAs(f, y) && LexLe(x, y)
    ensures Cuttable(f, item)
  {
    hide ItemAs, LexLe;
    var k := |x|;
    assert item[k] == '\n' && item[..k] == x && item[k + 1..] == y;
    assert CutAt(f, item, k);
  }

  lemma ItemIsCuttable(f: Forms, item: string, t: seq<string>)
    requires |t| >= 2 && Sorted(t) && AllAs(f, t) && Join(t) == item + NEWLINE && ItemAs(f, item) && Free(item)
    ensures Cuttable(f, item)
  {
    hide ItemAs, LexLe, Join, Free, Cuttable;
    var last := t[|t| - 1];
    assert LexLe(t[0], t[1]) && (|t| > 2 ==> LexLe(t[1], last));
    HeadIsFree(f, item, t);
    FreeBefore(f, t[1], last);
    if Free(last) {
      CutAfterFirst(f, item, t);
    } else {
      CutBeforeLast(f, item, t);
    }
  }

  lemma CutAfterFirst(f: Forms, item: string, t: seq<string>)
    requires |t| >= 2 && LexLe(t[0], t[1]) && AllAs(f, t) && Join(t) == item + NEWLINE && Free(t[1])
    ensures Cuttable(f, item)
  {
    JoinFirst(t);
    hide ItemAs, LexLe, Join, Free, Cuttable;
    var rest := JoinEnds(t[1..]);
    assert t[0] + NEWLINE + (rest + NEWLINE) == (t[0] + NEWLINE + rest) + NEWLINE;
    SameEnd(item, t[0] + NEWLINE + rest);
    Starts(f, t[1], rest);
    PrefixLater(t[0], t[1], rest);
    CutHere(f, item, t[0], rest);
  }

  lemma CutBeforeLast(f: Forms, item: string, t: seq<string>)
    requires |t| >= 2 && AllAs(f, t) && Join(t) == item + NEWLINE && Free(t[0]) && !Free(t[|t| - 1])
    ensures Cuttable(f, item)
  {
    hide ItemAs, LexLe, Join, Free, Cuttable;
    var last, front := t[|t| - 1], t[..|t| - 1];
    var glued := JoinEnds(front);
    assert t == front + [last];
    JoinConcat(front, [last]);
    JoinOne(last);
    assert glued + NEWLINE + (last + NEWLINE) == (glued + NEWLINE + last) + NEWLINE;
    SameEnd(item, glued + NEWLINE + last);
    Starts(f, t[0], glued);
    FreeBefore(f, glued, last);
    CutHere(f, item, glued, last);
  }

  lemma JoinFirst(t: seq<string>)
    requires t != []
    ensures Join(t) == t[0] + NEWLINE + Join(t[1..])
  {
  }

  lemma HeadIsFree(f: Forms, item: string, t: seq<string>)
    requires t != [] && ItemAs(f, t[0]) && Join(t) == item + NEWLINE && ItemAs(f, item) && Free(item)
    ensures Free(t[0])
  {
    FreeFirst(t[0], item);
    FreeFirst(item, t[0]);
    assert Join(t)[0] == t[0][0] && (item + NEWLINE)[0] == item[0];
  }

  lemma PrefixLater(x: string, y: string, z: string)
    requires LexLe(x, y) && y <= z
    ensures LexLe(x, z)
  {
    assert z == y + z[|y|..];
    LexPrefix(y, z[|y|..]);
    LexTrans(x, y, z);
  }

  // -- An instance ---------------------------------------------------------------------------------

  lemma ItemsOfOne(names: seq<string>)
    ensures Items(Names(names, [], [], [])) == Tagged(DNS, names)
    ensures Items(Names([], [], names, [])) == Tagged(EMAIL, names)
  {
  }

  lemma TaggedPair(tag: string, x: string, y: string)
    ensures Tagged(tag, [x]) == [tag + x]
    ensures Tagged(tag, [x, y]) == [tag + x, tag + y]
  {
    assert [x][1..] == [] && [x, y][1..] == [y] && [y][1..] == [];
    assert Tagged(tag, [y]) == [tag + y] + Tagged(tag, []);
  }

  lemma SortPair(x: string, y: string)
    requires LexLe(x, y)
    ensures Sort([x, y]) == [x, y]
  {
    hide Sort, LexLe;
    SortedIsSort([x, y], [x, y]);
  }

  lemma ReadAsOne(two: Names, one: Names, x: string, y: string)
    requires Items(two) == [x, y] && Items(one) == [x + NEWLINE + y] && LexLe(x, y)
    ensures SanString(two) == SanString(one) && !SameFamilies(two, one)
  {
    hide Items, Sort, Join, LexLe, SameFamilies;
    SortPair(x, y);
    SortShort(Items(one));
    JoinPair(x, y);
    JoinOne(x + NEWLINE + y);
    assert |multiset([x, y])| == 2 && |multiset([x + NEWLINE + y])| == 1;
    FamiliesByItems(two, one);
  }

  /** One name with a newline and a tag in it passes for two, whatever the two are. */
  lemma TwoNamesReadAsOne(x: string, y: string)
    ensures LexLe(DNS + x, DNS + y) ==>
              var two, one := Names([x, y], [], [], []), Names([x + NEWLINE + (DNS + y)], [], [], []);
              SanString(two) == SanString(one) && !SameFamilies(two, one)
    ensures LexLe(EMAIL + x, EMAIL + y) ==>
              var two, one := Names([], [], [x, y], []), Names([], [], [x + NEWLINE + (EMAIL + y)], []);
              SanString(two) == SanString(one) && !SameFamilies(two, one)
  {
    hide Items, Tagged, LexLe, SanString, SameFamilies;
    forall tag: string | tag == DNS || tag == EMAIL
      ensures Tagged(tag, [x, y]) == [tag + x, tag + y]
      ensures Tagged(tag, [x + NEWLINE + (tag + y)]) == [tag + x + NEWLINE + (tag + y)]
    {
      TaggedPair(tag, x, y);
      TaggedPair(tag, x + NEWLINE + (tag + y), "");
      assert tag + (x + NEWLINE + (tag + y)) == tag + x + NEWLINE + (tag + y);
    }
    ItemsOfOne([x, y]);
    ItemsOfOne([x + NEWLINE + (DNS + y)]);
    ItemsOfOne([x + NEWLINE + (EMAIL + y)]);
    if LexLe(DNS + x, DNS + y) {
      ReadAsOne(Names([x, y], [], [], []), Names([x + NEWLINE + (DNS + y)], [], [], []), DNS + x, DNS + y);
    }
    if LexLe(EMAIL + x, EMAIL + y) {
      ReadAsOne(Names([], [], [x, y], []), Names([], [], [x + NEWLINE + (EMAIL + y)], []), EMAIL + x, EMAIL + y);
    }
  }

  /** A certificate for "a" and "b", and a request for one name made of both: accepted as the same identity. */
  lemma NewlineAccepted(peer: Certificate, csr: Request)
    requires peer.commonName == csr.commonName
    requires || (peer.names == Names(["a", "b"], [], [], []) && csr.names == Names(["a\ndns:b"], [], [], []))
             || (peer.names == Names([], [], ["a", "b"], []) && csr.names == Names([], [], ["a\nemail:b"], []))
    ensures Matches(peer, csr) && !SameFamilies(peer.names, csr.names)
  {
    assert LexLe("a", "b");
    SharedStart(DNS, "a", "b");
    SharedStart(EMAIL, "a", "b");
    hide SanString, SameFamilies, LexLe;
    assert "a" + NEWLINE + (DNS + "b") == "a\ndns:b" && "a" + NEWLINE + (EMAIL + "b") == "a\nemail:b";
    TwoNamesReadAsOne("a", "b");
  }
}
