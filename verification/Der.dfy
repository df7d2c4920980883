/**
 Tag-length-value encoding under the distinguished rules of ITU-T X.690:
 minimal definite lengths (sections 8.1.3 and 10.1), low tag numbers, at most four
 length octets when reading.  Writing and reading are proved inverse of each other.
 */
module Der {
  import opened Common

  // The longest content the builder gives a length to.
  const MAX_CONTENT := 0xffff_fffe
  // The reader computes header plus content length in 32 bits and refuses overflow.
  const READ_LIMIT := 0x1_0000_0000

  // -- Lengths ---------------------------------------------------------------

  /** The base-256 digits of n, most significant first, none for zero. */
  function BigEndian(n: nat): bytes {
    if n == 0 then [] else BigEndian(n / 256) + [n % 256]
  }

  function FromBigEndian(s: bytes): nat {
    if s == [] then 0 else FromBigEndian(s[..|s| - 1]) * 256 + s[|s| - 1]
  }

  lemma {:induction false} FromBigEndianOf(n: nat)
    ensures FromBigEndian(BigEndian(n)) == n
    ensures n > 0 ==> BigEndian(n) != [] && BigEndian(n)[0] != 0
  {
    if n > 0 {
      FromBigEndianOf(n / 256);
      assert BigEndian(n)[..|BigEndian(n)| - 1] == BigEndian(n / 256);
    }
  }

  lemma {:induction false} BigEndianFrom(s: bytes)
    requires s == [] || s[0] != 0
    ensures BigEndian(FromBigEndian(s)) == s
    ensures s != [] ==> FromBigEndian(s) > 0
  {
    if s != [] {
      var init := s[..|s| - 1];
      BigEndianFrom(init);
      assert s == init + [s[|s| - 1]];
    }
  }

  function Pow256(k: nat): (r: nat)
    ensures r > 0
  {
    if k == 0 then 1 else 256 * Pow256(k - 1)
  }

  lemma {:induction false} FromBigEndianBound(s: bytes)
    ensures FromBigEndian(s) < Pow256(|s|)
  {
    if s != [] {
      FromBigEndianBound(s[..|s| - 1]);
    }
  }

  lemma {:induction false} BigEndianSize(n: nat, k: nat)
    ensures |BigEndian(n)| <= k <==> n < Pow256(k)
  {
    if k > 0 && n > 0 {
      BigEndianSize(n / 256, k - 1);
    }
  }

  lemma Pow256Values()
    ensures Pow256(0) == 1 && Pow256(1) == 0x100 && Pow256(2) == 0x1_0000
    ensures Pow256(3) == 0x100_0000 && Pow256(4) == 0x1_0000_0000
  {
    assert Pow256(2) == 256 * Pow256(1);
    assert Pow256(3) == 256 * Pow256(2);
    assert Pow256(4) == 256 * Pow256(3);
  }

  /** Section 10.1: the short form below 128, otherwise the fewest length octets. */
  function LengthOctets(n: nat): bytes {
    if n < 128 then [n] else [LongForm(|BigEndian(n)|)] + BigEndian(n)
  }

  /** The octet before k length octets; a length never needs more than eight. */
  function LongForm(k: nat): byte {
    if k < 127 then 128 + k else 255
  }

  lemma LengthOctetsSize(n: nat)
    requires n < READ_LIMIT
    ensures |LengthOctets(n)| == if n < 128 then 1 else 1 + |BigEndian(n)|
    ensures n >= 128 ==> 1 <= |BigEndian(n)| <= 4 && LengthOctets(n)[0] == 128 + |BigEndian(n)|
    ensures |LengthOctets(n)| <= 5
  {
    Pow256Values();
    BigEndianSize(n, 4);
  }

  lemma BigEndianStep(n: nat)
    ensures n > 0 ==> BigEndian(n) == BigEndian(n / 256) + [n % 256]
    ensures BigEndian(0) == []
  {
  }

  /** The length octets in full: the short form, then one more octet for each factor of 256. */
  lemma LengthsInFull(n: nat)
    ensures n < 0x80 ==> LengthOctets(n) == [n]
    ensures 0x80 <= n < 0x100 ==> LengthOctets(n) == [0x81, n]
    ensures 0x100 <= n < 0x1_0000 ==> LengthOctets(n) == [0x82, n / 256, n % 256]
    ensures 0x1_0000 <= n < 0x100_0000 ==> LengthOctets(n) == [0x83, n / 256 / 256, n / 256 % 256, n % 256]
    ensures 0x100_0000 <= n < 0x1_0000_0000 ==>
              LengthOctets(n) == [0x84, n / 256 / 256 / 256, n / 256 / 256 % 256, n / 256 % 256, n % 256]
  {
    BigEndianStep(n);
    BigEndianStep(n / 256);
    BigEndianStep(n / 256 / 256);
    BigEndianStep(n / 256 / 256 / 256);
    hide BigEndian;
  }

  // -- Elements --------------------------------------------------------------

  function Tlv(tag: byte, content: bytes): bytes {
    [tag] + LengthOctets(|content|) + content
  }

  datatype Element = Element(tag: byte, content: bytes, rest: bytes)

  predicate LowTag(tag: byte) {
    tag % 32 != 31
  }

  /** Reads one element from the front of s; none when the header is malformed, not minimal or truncated. */
  function Split(s: bytes): Option<Element> {
    if |s| < 2 || !LowTag(s[0]) then None
    else if s[1] < 128 then Cut(s, 2, s[1])
    else
      var k := s[1] - 128;
      if k == 0 || k > 4 || |s| < 2 + k then None
      else
        var n := FromBigEndian(s[2..2 + k]);
        if n < 128 || s[2] == 0 then None else Cut(s, 2 + k, n)
  }

  function Cut(s: bytes, header: nat, n: nat): Option<Element>
    requires 1 <= header <= |s|
  {
    if |s| < header + n then None
    else Some(Element(s[0], s[header..header + n], s[header + n..]))
  }

  lemma ThreeParts(head: bytes, content: bytes, rest: bytes)
    ensures var s := head + content + rest;
            && s[..|head|] == head && s[|head|..|head| + |content|] == content && s[|head| + |content|..] == rest
            && forall i :: 0 <= i < |head| ==> s[i] == head[i]
  {
  }

  lemma LongHeader(tag: byte, lead: byte, be: bytes)
    ensures var h := [tag] + ([lead] + be); |h| == 2 + |be| && h[1] == lead && h[2..2 + |be|] == be
    ensures be != [] ==> ([tag] + ([lead] + be))[2] == be[0]
  {
  }

  lemma HeaderFacts(tag: byte, n: nat)
    requires n < READ_LIMIT
    ensures var h := [tag] + LengthOctets(n);
            if n < 128 then h == [tag, n]
            else var k := |BigEndian(n)|;
              && 1 <= k <= 4 && |h| == 2 + k && h[1] == 128 + k && h[2] != 0
              && FromBigEndian(h[2..2 + k]) == n
  {
    LengthOctetsSize(n);
    FromBigEndianOf(n);
    if n >= 128 {
      LongHeader(tag, LengthOctets(n)[0], BigEndian(n));
    }
    hide BigEndian, FromBigEndian, LongForm;
  }

  lemma SplitTlv(tag: byte, content: bytes, rest: bytes)
    requires LowTag(tag) && |content| < READ_LIMIT
    ensures Split(Tlv(tag, content) + rest) == Some(Element(tag, content, rest))
  {
    var n, head := |content|, [tag] + LengthOctets(|content|);
    var s := head + content + rest;
    assert s == Tlv(tag, content) + rest;
    HeaderFacts(tag, n);
    ThreeParts(head, content, rest);
    hide Tlv, LengthOctets, BigEndian, FromBigEndian, LowTag;
    if n >= 128 {
      assert s[2..|head|] == head[2..|head|];
    }
  }

  lemma SplitSound(s: bytes)
    requires Split(s).Some?
    ensures var e := Split(s).value;
            && LowTag(e.tag) && |e.content| < READ_LIMIT
            && s == Tlv(e.tag, e.content) + e.rest
  {
    if s[1] < 128 {
      CutSound(s, 2, s[1]);
    } else {
      var k := s[1] - 128;
      var ls := s[2..2 + k];
      var n := FromBigEndian(ls);
      BigEndianFrom(ls);
      FromBigEndianBound(ls);
      BigEndianSize(n, 4);
      Pow256Values();
      assert s[1..2 + k] == [s[1]] + ls;
      CutSound(s, 2 + k, n);
    }
  }

  lemma CutSound(s: bytes, header: nat, n: nat)
    requires 1 <= header && header + n <= |s| && s[1..header] == LengthOctets(n)
    ensures s == Tlv(s[0], s[header..header + n]) + s[header + n..]
  {
    assert s[..header] == [s[0]] + s[1..header];
    assert s == s[..header] + s[header..header + n] + s[header + n..];
  }

  /** The reader itself: header plus content must also be countable in 32 bits. */
  function ReadAny(s: bytes): Option<Element> {
    var r := Split(s);
    if r.Some? && |s| - |r.value.rest| >= READ_LIMIT then None else r
  }

  /** The reader accepts exactly the writer's elements shorter than 2^32, and each in one way. */
  lemma ReadAnyExact(s: bytes, e: Element)
    ensures ReadAny(s) == Some(e) <==>
            && LowTag(e.tag) && |Tlv(e.tag, e.content)| < READ_LIMIT
            && s == Tlv(e.tag, e.content) + e.rest
  {
    if Split(s).Some? {
      SplitSound(s);
    }
    if LowTag(e.tag) && |Tlv(e.tag, e.content)| < READ_LIMIT {
      SplitTlv(e.tag, e.content, e.rest);
    }
  }

  /** ReadASN1: the next element if it bears the tag. */
  function ReadTag(s: bytes, tag: byte): Option<Element> {
    var r := ReadAny(s);
    if r.Some? && r.value.tag == tag then r else None
  }

  lemma ReadTagExact(s: bytes, tag: byte, content: bytes, rest: bytes)
    ensures ReadTag(s, tag) == Some(Element(tag, content, rest)) <==>
            LowTag(tag) && |Tlv(tag, content)| < READ_LIMIT && s == Tlv(tag, content) + rest
  {
    ReadAnyExact(s, Element(tag, content, rest));
  }

  lemma ReadTagOf(tag: byte, content: bytes, rest: bytes)
    requires LowTag(tag) && |Tlv(tag, content)| < READ_LIMIT
    ensures ReadTag(Tlv(tag, content) + rest, tag) == Some(Element(tag, content, rest))
  {
    ReadTagExact(Tlv(tag, content) + rest, tag, content, rest);
  }

  // -- Trees of elements ------------------------------------------------------

  datatype Tree = Prim(tag: byte, content: bytes) | Cons(tag: byte, kids: seq<Tree>)

  function Encode(t: Tree): bytes
    decreases t, 1
  {
    match t
    case Prim(tag, content) => Tlv(tag, content)
    case Cons(tag, kids) => Tlv(tag, EncodeAll(kids))
  }

  function EncodeAll(ts: seq<Tree>): bytes
    decreases ts, 0
  {
    if ts == [] then [] else Encode(ts[0]) + EncodeAll(ts[1..])
  }

  lemma ConcatAssoc(a: bytes, b: bytes, c: bytes)
    ensures a + (b + c) == (a + b) + c
  {
  }

  lemma {:induction false} EncodeAllConcat(ts: seq<Tree>, us: seq<Tree>)
    ensures EncodeAll(ts + us) == EncodeAll(ts) + EncodeAll(us)
  {
    hide Encode;
    if ts == [] {
      assert ts + us == us;
    } else {
      EncodeAllConcat(ts[1..], us);
      assert (ts + us)[0] == ts[0] && (ts + us)[1..] == ts[1..] + us;
      ConcatAssoc(Encode(ts[0]), EncodeAll(ts[1..]), EncodeAll(us));
    }
  }

  lemma EncodeAllOne(t: Tree)
    ensures EncodeAll([t]) == Encode(t)
  {
    assert EncodeAll([t]) == Encode(t) + EncodeAll([]);
  }

  predicate Constructed(tag: byte) {
    tag / 32 % 2 == 1
  }

  /** The constructed bit says which elements hold elements, and no content is too long to read back. */
  ghost predicate Proper(t: Tree)
    decreases t, 1
  {
    && LowTag(t.tag)
    && (t.Prim? <==> !Constructed(t.tag))
    && match t
       case Prim(_, content) => |content| < READ_LIMIT
       case Cons(_, kids) => |EncodeAll(kids)| < READ_LIMIT && ProperAll(kids)
  }

  ghost predicate ProperAll(ts: seq<Tree>)
    decreases ts, 0
  {
    ts == [] || (Proper(ts[0]) && ProperAll(ts[1..]))
  }

  /** Reads a whole byte string as a list of trees. */
  function Parse(s: bytes): Option<seq<Tree>>
    decreases |s|
  {
    if s == [] then Some([])
    else
      match Split(s)
      case None => None
      case Some(e) =>
        SplitSound(s);
        match Parse(e.rest)
        case None => None
        case Some(ts) =>
          if !Constructed(e.tag) then Some([Prim(e.tag, e.content)] + ts)
          else
            match Parse(e.content)
            case None => None
            case Some(kids) => Some([Cons(e.tag, kids)] + ts)
  }

  lemma {:induction false} ParseEncode(ts: seq<Tree>)
    requires ProperAll(ts)
    ensures Parse(EncodeAll(ts)) == Some(ts)
    decreases ts
  {
    if ts != [] {
      var t, rest := ts[0], EncodeAll(ts[1..]);
      ParseEncode(ts[1..]);
      var content := if t.Prim? then t.content else EncodeAll(t.kids);
      SplitTlv(t.tag, content, rest);
      if t.Cons? {
        ParseEncode(t.kids);
      }
      assert ts == [t] + ts[1..];
    }
  }

  lemma {:induction false} EncodeParse(s: bytes)
    requires Parse(s).Some?
    ensures EncodeAll(Parse(s).value) == s && ProperAll(Parse(s).value)
    decreases |s|
  {
    if s != [] {
      SplitSound(s);
      var e := Split(s).value;
      EncodeParse(e.rest);
      if Constructed(e.tag) {
        EncodeParse(e.content);
      }
      var ts := Parse(s).value;
      assert ts[1..] == Parse(e.rest).value;
    }
  }
}
