/** Base64 with padding (section 4 of RFC 4648), over bytes, decoded as Go's StdEncoding does. */
module Base64 {
  import opened Common

  type sextet = v: int | 0 <= v < 64

  const PAD: byte := 0x3d
  const CR: byte := 0x0d
  const LF: byte := 0x0a

  function Digit(v: sextet): byte {
    if v < 26 then 0x41 + v
    else if v < 52 then 0x61 + (v - 26)
    else if v < 62 then 0x30 + (v - 52)
    else if v == 62 then 0x2b else 0x2f
  }

  function Value(c: byte): Option<sextet> {
    if 0x41 <= c <= 0x5a then Some(c - 0x41)
    else if 0x61 <= c <= 0x7a then Some(c - 0x61 + 26)
    else if 0x30 <= c <= 0x39 then Some(c - 0x30 + 52)
    else if c == 0x2b then Some(62)
    else if c == 0x2f then Some(63)
    else None
  }

  lemma ValueOfDigit(v: sextet)
    ensures Value(Digit(v)) == Some(v) && Digit(v) != PAD && 0x2b <= Digit(v) <= 0x7a
  {
  }

  function Encode(data: bytes): bytes {
    if data == [] then []
    else if |data| == 1 then [Digit(data[0] / 4), Digit(data[0] % 4 * 16), PAD, PAD]
    else if |data| == 2 then
      [Digit(data[0] / 4), Digit(data[0] % 4 * 16 + data[1] / 16), Digit(data[1] % 16 * 4), PAD]
    else Group(data[0], data[1], data[2]) + Encode(data[3..])
  }

  function Group(a: byte, b: byte, c: byte): bytes {
    [Digit(a / 4), Digit(a % 4 * 16 + b / 16), Digit(b % 16 * 4 + c / 64), Digit(c % 64)]
  }

  predicate IsNewline(c: byte) {
    c == CR || c == LF
  }

  function DropNewlines(s: bytes): bytes {
    if s == [] then [] else (if IsNewline(s[0]) then [] else [s[0]]) + DropNewlines(s[1..])
  }

  /** Line breaks are skipped anywhere; padding ends the input; bits left over in the last digit are not looked at. */
  function Decode(s: bytes): Option<bytes> {
    DecodeGroups(DropNewlines(s))
  }

  function DecodeGroups(s: bytes): Option<bytes> {
    if s == [] then Some([])
    else if |s| < 4 then None
    else
      match (Value(s[0]), Value(s[1]))
      case (Some(v), Some(w)) =>
        if s[2] == PAD then (if s[3] == PAD && |s| == 4 then Some([First(v, w)]) else None)
        else
          (match Value(s[2])
           case None => None
           case Some(x) =>
             if s[3] == PAD then (if |s| == 4 then Some([First(v, w), Second(w, x)]) else None)
             else
               match (Value(s[3]), DecodeGroups(s[4..]))
               case (Some(y), Some(rest)) => Some([First(v, w), Second(w, x), Third(x, y)] + rest)
               case _ => None)
      case _ => None
  }

  function First(v: sextet, w: sextet): byte {
    v * 4 + w / 16
  }

  function Second(w: sextet, x: sextet): byte {
    w % 16 * 16 + x / 4
  }

  function Third(x: sextet, y: sextet): byte {
    x % 4 * 64 + y
  }

  lemma PackUnpack(a: byte, b: byte, c: byte)
    ensures First(a / 4, a % 4 * 16 + b / 16) == a
    ensures Second(a % 4 * 16 + b / 16, b % 16 * 4 + c / 64) == b
    ensures Third(b % 16 * 4 + c / 64, c % 64) == c
  {
  }

  lemma {:induction false} DecodeGroupsOf(data: bytes)
    ensures DecodeGroups(Encode(data)) == Some(data)
    decreases |data|
  {
    hide Digit, Value, First, Second, Third;
    forall v: sextet ensures Value(Digit(v)) == Some(v) && Digit(v) != PAD { ValueOfDigit(v); }
    if |data| == 1 {
      PackUnpack(data[0], 0, 0);
      assert data == [data[0]];
    } else if |data| == 2 {
      PackUnpack(data[0], data[1], 0);
      assert data == [data[0], data[1]];
    } else if |data| > 2 {
      PackUnpack(data[0], data[1], data[2]);
      DecodeGroupsOf(data[3..]);
      assert Encode(data)[4..] == Encode(data[3..]);
      assert data == [data[0], data[1], data[2]] + data[3..];
    }
  }

  predicate Printable(s: bytes) {
    forall i :: 0 <= i < |s| ==> 0x2b <= s[i] <= 0x7a
  }

  lemma {:induction false} EncodePrintable(data: bytes)
    ensures Printable(Encode(data))
    decreases |data|
  {
    hide Digit;
    forall v: sextet ensures 0x2b <= Digit(v) <= 0x7a { ValueOfDigit(v); }
    if |data| > 2 {
      EncodePrintable(data[3..]);
      var group := Group(data[0], data[1], data[2]);
      assert Printable(group) && Encode(data) == group + Encode(data[3..]);
    } else if |data| == 2 {
      var s := Encode(data);
      assert |s| == 4 && Printable(s[..3]) && s[3] == PAD;
    } else if |data| == 1 {
      var s := Encode(data);
      assert |s| == 4 && Printable(s[..2]) && s[2] == s[3] == PAD;
    }
  }

  lemma {:induction false} DropNothing(s: bytes)
    requires Printable(s)
    ensures DropNewlines(s) == s
  {
    if s != [] {
      DropNothing(s[1..]);
      assert s == [s[0]] + s[1..];
    }
  }

  lemma DecodeEncode(data: bytes)
    ensures Decode(Encode(data)) == Some(data)
  {
    EncodePrintable(data);
    DropNothing(Encode(data));
    DecodeGroupsOf(data);
  }

  lemma {:induction false} EncodeLength(data: bytes)
    ensures |Encode(data)| == (|data| + 2) / 3 * 4
    decreases |data|
  {
    if |data| > 2 {
      EncodeLength(data[3..]);
    }
  }

  // -- The alphabet and the accepted strings --------------------------------------------

  const ALPHABET := UPPER + LOWER + "0123456789+/"
  const UPPER := "ABCDEFGHIJKLMNOPQRSTUVWXYZ"
  const LOWER := "abcdefghijklmnopqrstuvwxyz"

  /** Table 1 of RFC 4648, in both directions. */
  lemma AlphabetExactly(v: sextet, c: byte)
    ensures Digit(v) as int == ALPHABET[v] as int
    ensures Value(c) == Some(v) <==> c as int == ALPHABET[v] as int
  {
    DigitIs(v);
    ValueOfDigit(v);
    DigitOfValue(c);
    hide Digit, Value;
    var d: int := Digit(v);
    assert c as int == d <==> c == Digit(v);
  }

  lemma DigitIs(v: sextet)
    ensures Digit(v) as int == ALPHABET[v] as int
  {
    if v < 26 {
      UpperCase(v);
    } else if v < 52 {
      LowerCase(v);
    } else {
      Others(v);
    }
  }

  lemma DigitOfValue(c: byte)
    ensures Value(c).Some? ==> Digit(Value(c).value) == c
  {
  }

  lemma UpperCase(v: sextet)
    requires v < 26
    ensures ALPHABET[v] as int == 0x41 + v
  {
  }

  lemma LowerCase(v: sextet)
    requires 26 <= v < 52
    ensures ALPHABET[v] as int == 0x61 + (v - 26)
  {
  }

  lemma Others(v: sextet)
    requires 52 <= v
    ensures ALPHABET[v] as int == if v < 62 then 0x30 + (v - 52) else if v == 62 then 0x2b else 0x2f
  {
  }

  predicate InAlphabet(c: byte) {
    exists v: sextet :: ALPHABET[v] as int == c as int
  }

  lemma InAlphabetExactly(c: byte)
    ensures Value(c).Some? <==> InAlphabet(c)
  {
    if Value(c).Some? {
      AlphabetExactly(Value(c).value, c);
    }
    forall v: sextet | ALPHABET[v] as int == c as int ensures Value(c).Some? {
      AlphabetExactly(v, c);
    }
  }

  predicate AllInAlphabet(s: bytes) {
    forall i :: 0 <= i < |s| ==> InAlphabet(s[i])
  }

  /** Whole groups of the alphabet, the last one perhaps with one or two equals signs at its end. */
  predicate Padded(s: bytes) {
    var n := |s|;
    && n % 4 == 0
    && (n > 0 ==>
          && AllInAlphabet(s[..n - 2])
          && ((InAlphabet(s[n - 2]) && (InAlphabet(s[n - 1]) || s[n - 1] == 0x3d)) || s[n - 2] == s[n - 1] == 0x3d))
  }

  lemma PadOutside()
    ensures !InAlphabet(0x3d)
  {
    InAlphabetExactly(0x3d);
  }

  lemma PaddedFirst(s: bytes)
    requires |s| > 4
    ensures Padded(s) <==>
            InAlphabet(s[0]) && InAlphabet(s[1]) && InAlphabet(s[2]) && InAlphabet(s[3]) && Padded(s[4..])
  {
    hide InAlphabet;
    var n, t := |s|, s[4..];
    if n % 4 == 0 {
      assert t[|t| - 1] == s[n - 1] && t[|t| - 2] == s[n - 2];
      assert s[..n - 2] == [s[0], s[1], s[2], s[3]] + t[..|t| - 2];
      SplitAll([s[0], s[1], s[2], s[3]], t[..|t| - 2]);
      var four := [s[0], s[1], s[2], s[3]];
      assert AllInAlphabet(four) <==>
               InAlphabet(four[0]) && InAlphabet(four[1]) && InAlphabet(four[2]) && InAlphabet(four[3]);
    }
  }

  lemma SplitAll(a: bytes, b: bytes)
    ensures AllInAlphabet(a + b) <==> AllInAlphabet(a) && AllInAlphabet(b)
  {
    hide InAlphabet;
    assert forall i :: 0 <= i < |a| ==> (a + b)[i] == a[i];
    assert forall i :: 0 <= i < |b| ==> (a + b)[|a| + i] == b[i];
  }

  lemma PaddedFour(s: bytes)
    requires |s| == 4
    ensures Padded(s) <==> InAlphabet(s[0]) && InAlphabet(s[1])
                           && ((InAlphabet(s[2]) && (InAlphabet(s[3]) || s[3] == 0x3d)) || s[2] == s[3] == 0x3d)
  {
    hide InAlphabet;
    assert s[..2][0] == s[0] && s[..2][1] == s[1];
  }

  lemma {:induction false} GroupsAccepted(s: bytes)
    ensures DecodeGroups(s).Some? <==> Padded(s)
    decreases |s|
  {
    PadOutside();
    forall c: byte ensures Value(c).Some? <==> InAlphabet(c) {
      InAlphabetExactly(c);
    }
    hide Value, InAlphabet, First, Second, Third;
    if |s| > 4 {
      hide Padded;
      GroupsAccepted(s[4..]);
      PaddedFirst(s);
    } else if |s| == 4 {
      hide Padded;
      PaddedFour(s);
      assert s[4..] == [];
    }
  }

  /** Exactly these strings are decoded: carriage returns and line feeds anywhere, the rest padded groups. */
  lemma AcceptedExactly(s: bytes)
    ensures Decode(s).Some? <==> Padded(DropNewlines(s))
  {
    GroupsAccepted(DropNewlines(s));
  }

  lemma {:induction false} OnlyNewlinesDropped(s: bytes)
    ensures (forall i :: 0 <= i < |s| ==> s[i] != 0x0d && s[i] != 0x0a) ==> DropNewlines(s) == s
    ensures s != [] && (s[0] == 0x0d || s[0] == 0x0a) ==> DropNewlines(s) == DropNewlines(s[1..])
  {
    if s != [] {
      OnlyNewlinesDropped(s[1..]);
      assert s == [s[0]] + s[1..];
    }
  }

  /** Three octets are cut into four groups of six bits, first bits first. */
  lemma GroupBits(a: byte, b: byte, c: byte) returns (v: sextet, w: sextet, x: sextet, y: sextet)
    ensures Group(a, b, c) == [Digit(v), Digit(w), Digit(x), Digit(y)]
    ensures v * 262144 + w * 4096 + x * 64 + y == a * 65536 + b * 256 + c
  {
    v, w, x, y := a / 4, a % 4 * 16 + b / 16, b % 16 * 4 + c / 64, c % 64;
  }

  /** Test vectors of section 10 of RFC 4648: "f", "fo", "foo", "foobar". */
  lemma Vectors()
    ensures Encode([0x66]) == [0x5a, 0x67, 0x3d, 0x3d]
    ensures Encode([0x66, 0x6f]) == [0x5a, 0x6d, 0x38, 0x3d]
    ensures Encode([0x66, 0x6f, 0x6f]) == [0x5a, 0x6d, 0x39, 0x76]
    ensures Encode([0x66, 0x6f, 0x6f, 0x62, 0x61, 0x72]) == [0x5a, 0x6d, 0x39, 0x76, 0x59, 0x6d, 0x46, 0x79]
  {
    assert [0x66, 0x6f, 0x6f][3..] == [];
    assert [0x66, 0x6f, 0x6f, 0x62, 0x61, 0x72][3..] == [0x62, 0x61, 0x72] && [0x62, 0x61, 0x72][3..] == [];
    assert Encode([0x62, 0x61, 0x72]) == [0x59, 0x6d, 0x46, 0x79] + Encode([]);
  }

  /** A byte outside the alphabet anywhere makes decoding fail. */
  lemma {:induction false} ForeignByte(s: bytes, i: nat)
    requires i < |s| && s[i] >= 128
    ensures DecodeGroups(s) == None
    decreases |s|
  {
    if |s| >= 4 && i >= 4 {
      ForeignByte(s[4..], i - 4);
    }
  }
}
