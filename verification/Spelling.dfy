/**
 What a configuration string spells, on its characters: signed decimal numbers between dots, and
 hexadecimal digits of either case.  The readers of Text take exactly these strings, for these values.
 */
module Spelling {
  import opened Common
  import opened Oid
  import opened Text

  // -- Numbers -------------------------------------------------------------------------

  function Unsigned(field: string): string {
    if field != "" && (field[0] == '-' || field[0] == '+') then field[1..] else field
  }

  /** An optional sign and at least one digit. */
  predicate NumberField(field: string) {
    Unsigned(field) != "" && forall i :: 0 <= i < |Unsigned(field)| ==> '0' <= Unsigned(field)[i] <= '9'
  }

  function Pow10(k: nat): nat {
    if k == 0 then 1 else 10 * Pow10(k - 1)
  }

  /** Each digit at its weight. */
  function Weighted(digits: string): int {
    if digits == "" then 0 else (digits[0] as int - '0' as int) * Pow10(|digits| - 1) + Weighted(digits[1..])
  }

  function SignedValue(field: string): int {
    if field != "" && field[0] == '-' then 0 - Weighted(Unsigned(field)) else Weighted(Unsigned(field))
  }

  predicate GoodField(field: string) {
    NumberField(field) && -0x8000_0000_0000_0000 <= SignedValue(field) <= 0x7fff_ffff_ffff_ffff
  }

  lemma {:induction false} WeightedSnoc(digits: string)
    requires digits != ""
    ensures var n := |digits| - 1; Weighted(digits) == Weighted(digits[..n]) * 10 + (digits[n] as int - '0' as int)
  {
    var n := |digits| - 1;
    if n == 0 {
      assert digits[1..] == "" && digits[..0] == "";
    } else {
      WeightedSnoc(digits[1..]);
      assert digits[1..][..n - 1] == digits[..n][1..];
      TenTimes(digits[0] as int - '0' as int, Pow10(n - 1));
    }
  }

  lemma TenTimes(d: int, p: int)
    ensures d * (10 * p) == d * p * 10
  {
  }

  lemma {:induction false} DigitsAreWeighted(digits: string)
    requires AllDigits(digits)
    ensures Digits(digits) == Weighted(digits)
  {
    if digits != "" {
      WeightedSnoc(digits);
      DigitsAreWeighted(digits[..|digits| - 1]);
    }
  }

  /** strconv.Atoi takes exactly these fields, and reads leading zeros as the weights say. */
  lemma AtoiExactly(field: string)
    ensures Atoi(field).Some? <==> GoodField(field)
    ensures Atoi(field).Some? ==> Atoi(field).value == SignedValue(field)
  {
    var digits := Unsigned(field);
    hide Digits, Weighted;
    if AllDigits(digits) {
      DigitsAreWeighted(digits);
    } else {
      var i :| 0 <= i < |digits| && !IsDigit(digits[i]);
      assert !('0' <= Unsigned(field)[i] <= '9');
    }
  }

  // -- Fields between dots --------------------------------------------------------------

  /** s[i..j] lies between two neighbouring dots, or a dot and an end. */
  predicate IsField(s: string, i: int, j: int) {
    && 0 <= i <= j <= |s|
    && (i == 0 || s[i - 1] == '.')
    && (j == |s| || s[j] == '.')
    && forall k :: i <= k < j ==> s[k] != '.'
  }

  function Dots(s: string): nat {
    if s == "" then 0 else (if s[0] == '.' then 1 else 0) + Dots(s[1..])
  }

  /** Every field of s is a number, and the arcs are the fields' values in order. */
  ghost predicate Spells(s: string, arcs: seq<int>) {
    && |arcs| == Dots(s) + 1
    && forall i, j :: IsField(s, i, j) ==> GoodField(s[i..j]) && ArcAt(arcs, Dots(s[..i]), SignedValue(s[i..j]))
  }

  predicate ArcAt(arcs: seq<int>, k: nat, value: int) {
    k < |arcs| && arcs[k] == value
  }

  lemma {:induction false} SplitCount(s: string)
    ensures |SplitDots(s)| == Dots(s) + 1
  {
    if s != "" {
      SplitCount(s[1..]);
    }
  }

  lemma {:induction false} FirstField(s: string, j: int)
    requires IsField(s, 0, j)
    ensures SplitDots(s)[0] == s[..j]
  {
    if j == 0 {
      assert s[..0] == "";
    } else {
      FirstField(s[1..], j - 1);
      assert s[..j] == [s[0]] + s[1..][..j - 1];
    }
  }

  lemma DotsFirst(s: string, i: int)
    requires 0 < i <= |s|
    ensures Dots(s[..i]) == (if s[0] == '.' then 1 else 0) + Dots(s[1..][..i - 1])
  {
    assert s[..i][0] == s[0] && s[..i][1..] == s[1..][..i - 1];
  }

  lemma {:induction false} DotSeen(s: string, i: int)
    requires 0 < i <= |s| && s[i - 1] == '.'
    ensures Dots(s[..i]) > 0
  {
    DotsFirst(s, i);
    if i > 1 && s[0] != '.' {
      DotSeen(s[1..], i - 1);
    }
  }

  /** The field after k dots is the k-th part. */
  lemma {:induction false} FieldAt(s: string, i: int, j: int)
    requires IsField(s, i, j)
    ensures Dots(s[..i]) < |SplitDots(s)| && SplitDots(s)[Dots(s[..i])] == s[i..j]
    decreases |s|
  {
    if i == 0 {
      assert s[..0] == "" && s[0..j] == s[..j];
      FirstField(s, j);
    } else {
      var t := s[1..];
      assert IsField(t, i - 1, j - 1);
      FieldAt(t, i - 1, j - 1);
      DotsFirst(s, i);
      assert t[i - 1..j - 1] == s[i..j];
      if s[0] != '.' {
        DotSeen(t, i - 1);
      }
    }
  }

  /** Every part is a field. */
  lemma {:induction false} PartIsField(s: string, k: int) returns (i: int, j: int)
    requires 0 <= k < |SplitDots(s)|
    ensures IsField(s, i, j) && Dots(s[..i]) == k
    decreases |s|
  {
    if s == "" {
      i, j := 0, 0;
    } else if k == 0 && s[0] == '.' {
      i, j := 0, 0;
      assert s[..0] == "";
    } else {
      var t := s[1..];
      i, j := PartIsField(t, if s[0] == '.' then k - 1 else k);
      if i == 0 && s[0] != '.' {
        assert t[..0] == "" && s[..0] == "";
        j := j + 1;
        assert forall m :: 0 < m < j ==> s[m] == t[m - 1];
      } else {
        i, j := i + 1, j + 1;
        DotsFirst(s, i);
        assert forall m :: i <= m < j ==> s[m] == t[m - 1];
      }
    }
  }

  /** parseOID takes exactly the strings that spell arcs, and gives those arcs. */
  lemma ParseOidExactly(s: string, arcs: seq<int>)
    ensures ParseOid(s) == Some(arcs) <==> Spells(s, arcs)
  {
    hide Atoi, GoodField, SignedValue, SplitDots, Dots, IsField;
    SplitCount(s);
    if ParseOid(s) == Some(arcs) {
      ParsedSpells(s, arcs);
    }
    if Spells(s, arcs) {
      SpelledParses(s, arcs);
    }
  }

  lemma ParsedSpells(s: string, arcs: seq<int>)
    requires ParseOid(s) == Some(arcs)
    ensures Spells(s, arcs)
  {
    hide Atoi, GoodField, SignedValue, SplitDots, Dots;
    SplitCount(s);
    var fields := SplitDots(s);
    forall i, j | IsField(s, i, j) ensures GoodField(s[i..j]) && ArcAt(arcs, Dots(s[..i]), SignedValue(s[i..j])) {
      FieldAt(s, i, j);
      AtoiExactly(s[i..j]);
      assert Atoi(fields[Dots(s[..i])]).Some?;
    }
  }

  lemma SpelledParses(s: string, arcs: seq<int>)
    requires Spells(s, arcs)
    ensures ParseOid(s) == Some(arcs)
  {
    hide Atoi, GoodField, SignedValue, SplitDots, Dots;
    SplitCount(s);
    var fields := SplitDots(s);
    forall k | 0 <= k < |fields| ensures Atoi(fields[k]) == Some(arcs[k]) {
      var i, j := PartIsField(s, k);
      FieldAt(s, i, j);
      AtoiExactly(s[i..j]);
    }
    assert Traverse(Atoi, fields).value == arcs;
  }

  /** It takes a string exactly when every field between dots is a number. */
  lemma ParseOidAccepts(s: string)
    ensures ParseOid(s).Some? <==> forall i, j :: IsField(s, i, j) ==> GoodField(s[i..j])
  {
    hide Atoi, GoodField, SignedValue, SplitDots, Dots;
    if ParseOid(s).Some? {
      ParseOidExactly(s, ParseOid(s).value);
    }
    if forall i, j :: IsField(s, i, j) ==> GoodField(s[i..j]) {
      var fields := SplitDots(s);
      forall k | 0 <= k < |fields| ensures Atoi(fields[k]).Some? {
        var i, j := PartIsField(s, k);
        FieldAt(s, i, j);
        AtoiExactly(s[i..j]);
      }
    }
  }

  // -- Identifiers ----------------------------------------------------------------------

  /** The arcs s spells are ones the builder takes. */
  ghost predicate Identifier(s: string, arcs: seq<int>) {
    && Spells(s, arcs) && |arcs| >= 2
    && (forall k :: 0 <= k < |arcs| ==> arcs[k] >= 0)
    && arcs[0] <= 2 && (arcs[0] <= 1 ==> arcs[1] <= 39)
  }

  /** The arcs s spells are ones encoding/asn1 takes: it does not look at signs. */
  ghost predicate MarshalIdentifier(s: string, arcs: seq<int>) {
    Spells(s, arcs) && |arcs| >= 2 && arcs[0] <= 2 && (arcs[0] <= 1 ==> arcs[1] <= 39)
  }

  ghost predicate SpellsIdentifier(s: string) {
    exists arcs: seq<int> :: Identifier(s, arcs)
  }

  ghost predicate SpellsMarshalIdentifier(s: string) {
    exists arcs: seq<int> :: MarshalIdentifier(s, arcs)
  }

  lemma IdentifierExactly(s: string, arcs: seq<int>)
    ensures Identifier(s, arcs) <==> ParseOid(s) == Some(arcs) && BuilderAccepts(arcs)
    ensures MarshalIdentifier(s, arcs) <==> ParseOid(s) == Some(arcs) && MarshalAccepts(arcs)
  {
    hide ParseOid, Spells;
    ParseOidExactly(s, arcs);
  }

  // -- Hexadecimal ---------------------------------------------------------------------------

  predicate HexDigitOf(c: char, n: int) {
    0 <= n < 16 && ("0123456789abcdef"[n] == c || "0123456789ABCDEF"[n] == c)
  }

  predicate HexChar(c: char) {
    '0' <= c <= '9' || 'a' <= c <= 'f' || 'A' <= c <= 'F'
  }

  lemma NibbleExactly(c: char, n: int)
    ensures Nibble(c) == Some(n) <==> HexDigitOf(c, n)
    ensures Nibble(c).Some? <==> HexChar(c)
  {
    if 0 <= n < 16 {
      HexTables(n);
    }
  }

  lemma HexTables(n: int)
    requires 0 <= n < 16
    ensures "0123456789abcdef"[n] as int == if n < 10 then 48 + n else 87 + n
    ensures "0123456789ABCDEF"[n] as int == if n < 10 then 48 + n else 55 + n
  {
  }

  /** Two digits a byte, the high one first. */
  predicate HexSpells(s: string, data: bytes) {
    |s| == 2 * |data| && forall i :: 0 <= i < |data| ==> HexPairOf(s, i, data[i])
  }

  predicate HexPairOf(s: string, i: int, b: byte) {
    0 <= i && 2 * i + 1 < |s| && HexDigitOf(s[2 * i], b / 16) && HexDigitOf(s[2 * i + 1], b % 16)
  }

  predicate HexString(s: string) {
    |s| % 2 == 0 && forall i :: 0 <= i < |s| ==> HexChar(s[i])
  }

  lemma NibbleRange(c: char)
    ensures Nibble(c).Some? ==> 0 <= Nibble(c).value < 16
  {
  }

  lemma TwoNibbles(hi: int, lo: int, b: byte)
    requires 0 <= hi < 16 && 0 <= lo < 16
    ensures NibbleByte(hi, lo) == b <==> hi == b / 16 && lo == b % 16
  {
    var v: int := b;
    assert v == v / 16 * 16 + v % 16;
    assert hi * 16 + lo < 256;
  }

  lemma HexPairExactly(hi: char, lo: char, b: byte)
    ensures Nibble(hi).Some? && Nibble(lo).Some? && NibbleByte(Nibble(hi).value, Nibble(lo).value) == b
            <==> HexDigitOf(hi, b / 16) && HexDigitOf(lo, b % 16)
  {
    NibbleExactly(hi, b / 16);
    NibbleExactly(lo, b % 16);
    NibbleRange(hi);
    NibbleRange(lo);
    hide HexDigitOf, Nibble, NibbleByte;
    if Nibble(hi).Some? && Nibble(lo).Some? {
      TwoNibbles(Nibble(hi).value, Nibble(lo).value, b);
    }
  }

  /** hex.DecodeString takes exactly these strings, for these bytes. */
  lemma {:induction false} HexExactly(s: string, data: bytes)
    ensures HexDecode(s) == Some(data) <==> HexSpells(s, data)
    decreases |s|
  {
    hide Nibble, NibbleByte, HexDigitOf;
    if |s| >= 2 && data != [] {
      HexPairExactly(s[0], s[1], data[0]);
      HexExactly(s[2..], data[1..]);
      HexSpellsFirst(s, data);
      assert data == [data[0]] + data[1..];
    }
  }

  lemma HexSpellsFirst(s: string, data: bytes)
    requires |s| >= 2 && data != []
    ensures HexSpells(s, data) <==>
            HexDigitOf(s[0], data[0] / 16) && HexDigitOf(s[1], data[0] % 16) && HexSpells(s[2..], data[1..])
  {
    hide HexDigitOf;
    var t, rest := s[2..], data[1..];
    if HexSpells(s, data) {
      assert HexPairOf(s, 0, data[0]);
      forall i | 0 <= i < |rest| ensures HexPairOf(t, i, rest[i]) {
        assert HexPairOf(s, i + 1, data[i + 1]);
      }
    }
    if HexDigitOf(s[0], data[0] / 16) && HexDigitOf(s[1], data[0] % 16) && HexSpells(t, rest) {
      forall i | 0 <= i < |data| ensures HexPairOf(s, i, data[i]) {
        if i > 0 {
          assert HexPairOf(t, i - 1, rest[i - 1]);
        }
      }
    }
  }

  lemma HexStringExactly(s: string)
    ensures HexDecode(s).Some? <==> HexString(s)
  {
    HexAccepted(s);
    forall i | 0 <= i < |s| ensures Nibble(s[i]).Some? <==> HexChar(s[i]) {
      NibbleExactly(s[i], 0);
    }
  }
}
