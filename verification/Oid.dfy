/**
 Content octets of INTEGER (X.690 section 8.3) and OBJECT IDENTIFIER (section 8.19),
 with the 64-bit arithmetic of the two encoders the program relies on.
 */
module Oid {
  import opened Common
  import opened Der

  // -- INTEGER ----------------------------------------------------------------

  /** Two's complement in the fewest octets. */
  function IntOctets(v: int): (s: bytes)
    ensures s != []
    decreases if v < 0 then -v else v
  {
    if -128 <= v < 128 then [v % 256] else IntOctets(v / 256) + [v % 256]
  }

  function IntValue(s: bytes): int
    requires s != []
  {
    if |s| == 1 then (if s[0] < 128 then s[0] else s[0] - 256)
    else IntValue(s[..|s| - 1]) * 256 + s[|s| - 1]
  }

  predicate MinimalInteger(s: bytes) {
    && s != []
    && (|s| == 1 || !((s[0] == 0 && s[1] < 128) || (s[0] == 255 && s[1] >= 128)))
  }

  lemma {:induction false} IntValueOf(v: int)
    ensures IntValue(IntOctets(v)) == v && MinimalInteger(IntOctets(v))
    decreases if v < 0 then -v else v
  {
    if !(-128 <= v < 128) {
      IntValueOf(v / 256);
      var s := IntOctets(v);
      assert s[..|s| - 1] == IntOctets(v / 256);
      if |s| == 2 {
        assert -128 <= v / 256 < 128;
      } else {
        assert s[1] == IntOctets(v / 256)[1];
      }
    }
  }

  lemma IntOctetsSnoc(v: int, b: byte)
    requires !(-128 <= v * 256 + b < 128)
    ensures IntOctets(v * 256 + b) == IntOctets(v) + [b]
  {
    assert (v * 256 + b) / 256 == v && (v * 256 + b) % 256 == b;
  }

  lemma MinimalInit(s: bytes)
    requires MinimalInteger(s) && |s| > 1
    ensures MinimalInteger(s[..|s| - 1])
    ensures |s| == 2 ==> !(-128 <= IntValue(s) < 128)
  {
    var init := s[..|s| - 1];
    assert init[0] == s[0] && (|s| > 2 ==> init[1] == s[1]);
  }

  /** The octets of a number are the only minimal ones for it. */
  lemma {:induction false} IntOctetsFrom(s: bytes)
    requires MinimalInteger(s)
    ensures IntOctets(IntValue(s)) == s
    ensures |s| > 1 ==> !(-128 <= IntValue(s) < 128)
  {
    if |s| > 1 {
      var init, last := s[..|s| - 1], s[|s| - 1];
      MinimalInit(s);
      IntOctetsFrom(init);
      var v := IntValue(init);
      assert IntValue(s) == v * 256 + last;
      hide MinimalInteger, IntValue, IntOctets;
      IntOctetsSnoc(v, last);
      assert s == init + [last];
    }
  }

  lemma IntOctetsLonger(v: int)
    requires !(-128 <= v < 128)
    ensures |IntOctets(v)| == |IntOctets(v / 256)| + 1
  {
  }

  lemma DivideBound(v: int, p: int)
    requires p % 2 == 0
    ensures 0 - 256 * p <= 2 * v < 256 * p <==> 0 - p <= 2 * (v / 256) < p
  {
    var q, r := v / 256, v % 256;
    assert v == 256 * q + r && 0 <= r < 256;
  }

  /** k octets hold exactly the values from -256^k/2 up to 256^k/2. */
  lemma {:induction false} IntSize(v: int, k: nat)
    requires k > 0
    ensures |IntOctets(v)| <= k <==> 0 - Pow256(k) <= 2 * v < Pow256(k)
    decreases k
  {
    Pow256Values();
    if -128 <= v < 128 {
      Pow256Grows(1, k);
    } else {
      IntOctetsLonger(v);
      if k > 1 {
        IntSize(v / 256, k - 1);
        Pow256Even(k - 1);
        DivideBound(v, Pow256(k - 1));
        assert Pow256(k) == 256 * Pow256(k - 1);
        hide IntOctets, Pow256;
      } else {
        hide Pow256;
      }
    }
  }

  lemma {:induction false} Pow256Grows(j: nat, k: nat)
    requires j <= k
    ensures Pow256(j) <= Pow256(k)
  {
    if j < k {
      Pow256Grows(j, k - 1);
    }
  }

  lemma Pow256Even(k: nat)
    requires k > 0
    ensures Pow256(k) % 2 == 0
  {
  }

  /** Two's complement: the unsigned value, less 256^n when the first bit is set. */
  lemma {:induction false} TwosComplement(s: bytes)
    requires s != []
    ensures IntValue(s) == FromBigEndian(s) - (if s[0] < 0x80 then 0 else Pow256(|s|))
  {
    if |s| == 1 {
      assert s[..0] == [];
      Pow256Values();
    } else {
      var init := s[..|s| - 1];
      TwosComplement(init);
      assert Pow256(|s|) == 256 * Pow256(|s| - 1);
    }
  }

  /** ReadASN1Int64: minimal and at most eight octets. */
  function ReadInt64(s: bytes): Option<int> {
    if MinimalInteger(s) && |s| <= 8 then Some(IntValue(s)) else None
  }

  lemma TwoTo64()
    ensures Pow256(8) == 0x1_0000_0000_0000_0000
  {
    Pow256Values();
    assert Pow256(5) == 0x100_0000_0000;
    assert Pow256(6) == 0x1_0000_0000_0000;
    assert Pow256(7) == 0x100_0000_0000_0000;
  }

  /** Exactly the encodings of 64-bit numbers are read. */
  lemma ReadInt64Exactly(s: bytes, n: int)
    ensures ReadInt64(s) == Some(n) <==>
              s == IntOctets(n) && -0x8000_0000_0000_0000 <= n <= 0x7fff_ffff_ffff_ffff
  {
    IntValueOf(n);
    IntSize(n, 8);
    TwoTo64();
    if MinimalInteger(s) {
      IntOctetsFrom(s);
    }
    hide MinimalInteger, IntOctets, IntValue, Pow256;
  }

  // -- Base 128 ----------------------------------------------------------------

  function HighGroups(n: nat): bytes {
    if n == 0 then [] else HighGroups(n / 128) + [128 + n % 128]
  }

  /** Both encoders write nothing at all for a negative number. */
  function Base128(n: int): bytes {
    if n < 0 then [] else HighGroups(n / 128) + [n % 128]
  }

  function SubOctets(vs: seq<int>): bytes {
    if vs == [] then [] else Base128(vs[0]) + SubOctets(vs[1..])
  }

  datatype Sub = Sub(value: nat, rest: bytes)

  function TakeSub(s: bytes, acc: nat): Option<Sub> {
    if s == [] then None
    else if s[0] < 128 then Some(Sub(acc * 128 + s[0], s[1..]))
    else TakeSub(s[1..], acc * 128 + (s[0] - 128))
  }

  lemma TakeSubShorter(s: bytes, acc: nat)
    requires TakeSub(s, acc).Some?
    ensures |TakeSub(s, acc).value.rest| < |s|
  {
  }

  /** Section 8.19.2: a subidentifier never starts with the octet 0x80. */
  function ReadSubs(s: bytes): Option<seq<nat>>
    decreases |s|
  {
    if s == [] then Some([])
    else if s[0] == 128 then None
    else
      match TakeSub(s, 0)
      case None => None
      case Some(sub) =>
        TakeSubShorter(s, 0);
        match ReadSubs(sub.rest)
        case None => None
        case Some(vs) => Some([sub.value] + vs)
  }

  lemma {:induction false} TakeHighGroups(n: nat, t: bytes)
    ensures TakeSub(HighGroups(n) + t, 0) == TakeSub(t, n)
    ensures n > 0 ==> HighGroups(n) != [] && HighGroups(n)[0] > 128
  {
    if n == 0 {
      assert HighGroups(n) + t == t;
    } else {
      var last := [128 + n % 128];
      TakeHighGroups(n / 128, last + t);
      assert HighGroups(n) + t == HighGroups(n / 128) + (last + t);
      assert (last + t)[1..] == t;
      assert TakeSub(last + t, n / 128) == TakeSub(t, n);
    }
  }

  lemma TakeBase128(n: nat, rest: bytes)
    ensures Base128(n) != [] && (Base128(n) + rest)[0] != 128
    ensures TakeSub(Base128(n) + rest, 0) == Some(Sub(n, rest))
  {
    var last := [n % 128] + rest;
    TakeHighGroups(n / 128, last);
    assert Base128(n) + rest == HighGroups(n / 128) + last;
    assert last[1..] == rest;
  }

  lemma {:induction false} ReadSubsOf(vs: seq<nat>)
    ensures ReadSubs(SubOctets(vs)) == Some(vs)
    decreases |vs|
  {
    hide Base128, TakeSub;
    if vs != [] {
      ReadSubsOf(vs[1..]);
      TakeBase128(vs[0], SubOctets(vs[1..]));
      assert vs == [vs[0]] + vs[1..];
    }
  }

  lemma GroupsSnoc(acc: nat, b: nat)
    requires b < 128
    ensures Base128(acc * 128 + b) == HighGroups(acc) + [b]
    ensures acc * 128 + b > 0 ==> HighGroups(acc * 128 + b) == HighGroups(acc) + [128 + b]
  {
    assert (acc * 128 + b) / 128 == acc && (acc * 128 + b) % 128 == b;
  }

  lemma {:induction false} TakeSubSound(s: bytes, acc: nat)
    requires TakeSub(s, acc).Some?
    requires acc > 0 || s[0] != 128
    ensures var sub := TakeSub(s, acc).value; HighGroups(acc) + s == Base128(sub.value) + sub.rest
    decreases |s|
  {
    hide HighGroups, Base128;
    var b: int := s[0];
    assert s == [s[0]] + s[1..];
    ConcatAssoc(HighGroups(acc), [s[0]], s[1..]);
    if b >= 128 {
      GroupsSnoc(acc, b - 128);
      TakeSubSound(s[1..], acc * 128 + (b - 128));
    } else {
      GroupsSnoc(acc, b);
    }
  }

  lemma {:induction false} SubOctetsFrom(s: bytes)
    requires ReadSubs(s).Some?
    ensures SubOctets(ReadSubs(s).value) == s
    decreases |s|
  {
    if s != [] {
      var sub := TakeSub(s, 0).value;
      TakeSubSound(s, 0);
      TakeSubShorter(s, 0);
      SubOctetsFrom(sub.rest);
      assert HighGroups(0) + s == s;
      var vs := ReadSubs(s).value;
      assert vs[1..] == ReadSubs(sub.rest).value;
    }
  }

  // -- OBJECT IDENTIFIER ----------------------------------------------------------

  type Arcs = seq<int>

  const TWO63 := 0x8000_0000_0000_0000

  predicate Int64(n: int) {
    -TWO63 <= n < TWO63
  }

  function Wrap64(n: int): int {
    (n + TWO63) % (2 * TWO63) - TWO63
  }

  /** What the builder checks before writing an object identifier. */
  predicate BuilderAccepts(oid: Arcs) {
    && |oid| >= 2
    && !(oid[0] > 2 || (oid[0] <= 1 && oid[1] >= 40))
    && forall i :: 0 <= i < |oid| ==> oid[i] >= 0
  }

  /** What encoding/asn1 checks: the sign of an arc is not looked at. */
  predicate MarshalAccepts(oid: Arcs) {
    |oid| >= 2 && !(oid[0] > 2 || (oid[0] < 2 && oid[1] >= 40))
  }

  /** The first two arcs are packed into one 64-bit number. */
  function OidOctets(oid: Arcs): bytes
    requires |oid| >= 2
  {
    Base128(Wrap64(oid[0] * 40 + oid[1])) + SubOctets(oid[2..])
  }

  function DecodeOid(s: bytes): Option<Arcs> {
    match ReadSubs(s)
    case None => None
    case Some(vs) =>
      if vs == [] then None
      else if vs[0] < 80 then Some([vs[0] / 40, vs[0] % 40] + vs[1..])
      else Some([2, vs[0] - 80] + vs[1..])
  }

  /** No negative arc, and the packing of the first two does not overflow. */
  predicate Faithful(oid: Arcs)
    requires |oid| >= 2
  {
    (forall i :: 0 <= i < |oid| ==> oid[i] >= 0) && oid[0] * 40 + oid[1] < TWO63
  }

  /** An accepted object identifier can be read back exactly when it is faithful. */
  lemma OidRoundTrip(oid: Arcs)
    requires MarshalAccepts(oid)
    requires forall i :: 0 <= i < |oid| ==> Int64(oid[i])
    ensures DecodeOid(OidOctets(oid)) == Some(oid) <==> Faithful(oid)
  {
    if Faithful(oid) {
      FaithfulReadBack(oid);
    } else if forall i :: 0 <= i < |oid| ==> oid[i] >= 0 {
      OverflowLost(oid);
    } else if DecodeOid(OidOctets(oid)) == Some(oid) {
      var bad :| 0 <= bad < |oid| && oid[bad] < 0;
      DecodedArcsNatural(OidOctets(oid), bad);
    }
  }

  lemma UnpackPair(a: int, b: int)
    requires 0 <= a <= 2 && 0 <= b && (a < 2 ==> b < 40)
    ensures var n := a * 40 + b; if n < 80 then n / 40 == a && n % 40 == b else a == 2 && n - 80 == b
  {
  }

  lemma FaithfulReadBack(oid: Arcs)
    requires MarshalAccepts(oid) && Faithful(oid)
    ensures DecodeOid(OidOctets(oid)) == Some(oid)
  {
    var first := oid[0] * 40 + oid[1];
    var tail: seq<nat> := oid[2..];
    assert first >= 0 && Wrap64(first) == first;
    assert oid == [oid[0], oid[1]] + tail;
    var vs := [first] + tail;
    assert vs[1..] == tail;
    assert OidOctets(oid) == SubOctets(vs);
    UnpackPair(oid[0], oid[1]);
    ReadSubsOf(vs);
    hide Wrap64, Base128, ReadSubs, OidOctets, SubOctets;
  }

  lemma OverflowLost(oid: Arcs)
    requires MarshalAccepts(oid) && !Faithful(oid)
    requires forall i :: 0 <= i < |oid| ==> 0 <= oid[i] < TWO63
    ensures DecodeOid(OidOctets(oid)) != Some(oid)
  {
    var tail: seq<nat> := oid[2..];
    var first := oid[0] * 40 + oid[1];
    assert TWO63 <= first < TWO63 + 80;
    assert Wrap64(first) < 0;
    assert OidOctets(oid) == SubOctets(tail);
    ReadSubsOf(tail);
  }

  lemma DecodedArcsNatural(s: bytes, i: nat)
    requires DecodeOid(s).Some? && i < |DecodeOid(s).value|
    ensures DecodeOid(s).value[i] >= 0
  {
    var vs := ReadSubs(s).value;
    if i >= 2 {
      assert DecodeOid(s).value[i] == vs[i - 1];
    }
  }

  /** Only one content is read as a given faithful object identifier. */
  lemma DecodeOidCanonical(s: bytes, oid: Arcs)
    requires |oid| >= 2 && Faithful(oid) && DecodeOid(s) == Some(oid)
    ensures s == OidOctets(oid)
  {
    SubOctetsFrom(s);
    var vs := ReadSubs(s).value;
    assert oid[2..] == vs[1..];
    assert vs[0] == oid[0] * 40 + oid[1];
    assert Wrap64(vs[0]) == vs[0];
  }

  /** Two different accepted identifiers with the same octets: the packed pair overflows and is dropped. */
  lemma OverflowCollides(big: Arcs, small: Arcs)
    requires big == [2, TWO63 - 1, 5, 6] && small == [0, 5, 6]
    ensures BuilderAccepts(big) && BuilderAccepts(small) && OidOctets(big) == OidOctets(small)
  {
    assert big[2..] == [5, 6] && small[2..] == [6] && [5, 6][1..] == [6];
    assert Wrap64(2 * 40 + (TWO63 - 1)) < 0 && Wrap64(0 * 40 + 5) == 5;
    assert Base128(Wrap64(big[0] * 40 + big[1])) == [];
    hide Wrap64, Base128;
  }

  // -- Octets in full ---------------------------------------------------------------------

  predicate Small(arcs: seq<int>) {
    forall i :: 0 <= i < |arcs| ==> 0 <= arcs[i] < 128
  }

  function AsOctet(v: int): byte {
    if 0 <= v < 256 then v else 0
  }

  lemma Base128Small(v: int)
    requires 0 <= v < 128
    ensures Base128(v) == [AsOctet(v)]
  {
    assert HighGroups(0) == [];
  }

  lemma MapFirst(arcs: seq<int>)
    requires arcs != []
    ensures Map(AsOctet, arcs) == [AsOctet(arcs[0])] + Map(AsOctet, arcs[1..])
  {
    hide AsOctet;
  }

  /** Arcs below 128 are an octet each. */
  lemma {:induction false} SmallArcs(arcs: seq<int>)
    requires Small(arcs)
    ensures SubOctets(arcs) == Map(AsOctet, arcs)
  {
    if arcs == [] {
      assert Map(AsOctet, arcs) == [];
    } else {
      Base128Small(arcs[0]);
      hide Base128, AsOctet, Map;
      SmallArcs(arcs[1..]);
      MapFirst(arcs);
    }
  }

  lemma {:induction false} SubOctetsConcat(a: seq<int>, b: seq<int>)
    ensures SubOctets(a + b) == SubOctets(a) + SubOctets(b)
  {
    if a == [] {
      assert a + b == b;
    } else {
      SubOctetsConcat(a[1..], b);
      assert (a + b)[1..] == a[1..] + b && (a + b)[0] == a[0];
      ConcatAssoc(Base128(a[0]), SubOctets(a[1..]), SubOctets(b));
    }
  }

  lemma RsaSubOctets()
    ensures SubOctets([840, 113549]) == [0x86, 0x48, 0x86, 0xf7, 0x0d]
  {
    assert [840, 113549][1..] == [113549] && [113549][1..] == [];
    assert HighGroups(6) == HighGroups(0) + [0x86];
    assert HighGroups(887) == HighGroups(6) + [0xf7];
    assert Base128(840) == HighGroups(6) + [0x48];
    assert Base128(113549) == HighGroups(887) + [0x0d];
    assert SubOctets([113549]) == Base128(113549) + SubOctets([]);
  }

  /** Identifiers under 1.2.840.113549, byte by byte. */
  lemma RsaOctets(rest: seq<int>)
    requires Small(rest)
    ensures OidOctets([1, 2, 840, 113549] + rest)
         == [0x2a, 0x86, 0x48, 0x86, 0xf7, 0x0d] + Map(AsOctet, rest)
  {
    hide SubOctets, Base128, Wrap64;
    var oid := [1, 2, 840, 113549] + rest;
    assert oid[2..] == [840, 113549] + rest;
    FirstPair();
    RsaSubOctets();
    SubOctetsConcat([840, 113549], rest);
    SmallArcs(rest);
  }

  lemma OctetsAsGiven(octets: seq<byte>, arcs: seq<int>)
    requires |octets| == |arcs| && forall i :: 0 <= i < |arcs| ==> arcs[i] == octets[i]
    ensures Map(AsOctet, arcs) == octets
  {
    forall i | 0 <= i < |arcs| ensures AsOctet(arcs[i]) == octets[i] {
    }
  }

  lemma FirstPair()
    ensures Base128(Wrap64(1 * 40 + 2)) == [0x2a]
  {
    Wrap64Fits(42);
    assert Base128(42) == HighGroups(0) + [0x2a];
    hide Wrap64;
  }

  lemma Wrap64Fits(n: int)
    requires Int64(n)
    ensures Wrap64(n) == n
  {
  }

  /** The example of section 8.19.5 of ITU-T X.690. */
  lemma JointIsoExample()
    ensures OidOctets([2, 100, 3]) == [0x81, 0x34, 0x03]
  {
    assert [2, 100, 3][2..] == [3] && [3][1..] == [];
    Wrap64Fits(180);
    hide Wrap64;
    assert HighGroups(1) == HighGroups(0) + [0x81];
    assert Base128(180) == HighGroups(1) + [0x34];
    assert SubOctets([3]) == Base128(3) + SubOctets([]);
  }
}
