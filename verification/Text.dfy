/** Reading of dotted object identifiers and of hexadecimal, as configuration strings spell them. */
module Text {
  import opened Common
  import opened Oid

  // -- Decimal ---------------------------------------------------------------------

  predicate IsDigit(c: char) {
    '0' <= c <= '9'
  }

  predicate AllDigits(s: string) {
    forall i :: 0 <= i < |s| ==> IsDigit(s[i])
  }

  function Digits(s: string): (n: nat)
    requires AllDigits(s)
  {
    if s == "" then 0
    else
      assert IsDigit(s[|s| - 1]);
      Digits(s[..|s| - 1]) * 10 + (s[|s| - 1] as int - '0' as int)
  }

  /** strconv.Atoi: an optional sign, then digits, within 64 bits. */
  function Atoi(s: string): Option<int> {
    var signed := s != "" && (s[0] == '-' || s[0] == '+');
    var digits := if signed then s[1..] else s;
    if digits == "" || !AllDigits(digits) then None
    else
      var n := if signed && s[0] == '-' then 0 - Digits(digits) else Digits(digits);
      if Int64(n) then Some(n) else None
  }

  function Itoa(n: nat): (s: string)
    ensures s != "" && forall i :: 0 <= i < |s| ==> IsDigit(s[i])
  {
    (if n < 10 then "" else Itoa(n / 10)) + [(n % 10 + '0' as int) as char]
  }

  lemma {:induction false} DigitsOfItoa(n: nat)
    ensures Digits(Itoa(n)) == n
  {
    var s := Itoa(n);
    if n >= 10 {
      DigitsOfItoa(n / 10);
      assert s[..|s| - 1] == Itoa(n / 10);
    } else {
      assert s[..|s| - 1] == "";
    }
  }

  lemma AtoiOfItoa(n: nat)
    requires n < TWO63
    ensures Atoi(Itoa(n)) == Some(n)
  {
    DigitsOfItoa(n);
    assert IsDigit(Itoa(n)[0]);
  }

  // -- Dotted identifiers --------------------------------------------------------------

  /** strings.Split at every dot; at least one field. */
  function SplitDots(s: string): (fields: seq<string>)
    ensures fields != []
  {
    if s == "" then [""]
    else
      var fields := SplitDots(s[1..]);
      if s[0] == '.' then [""] + fields else [[s[0]] + fields[0]] + fields[1..]
  }

  lemma {:induction false} SplitFirst(a: string, t: string)
    requires forall i :: 0 <= i < |a| ==> a[i] != '.'
    ensures SplitDots(a) == [a]
    ensures SplitDots(a + "." + t) == [a] + SplitDots(t)
  {
    if a == "" {
      assert (a + "." + t)[1..] == t;
    } else {
      SplitFirst(a[1..], t);
      assert (a + "." + t)[1..] == a[1..] + "." + t;
      assert a == [a[0]] + a[1..];
    }
  }

  function ParseOid(dotted: string): Option<Arcs> {
    Traverse(Atoi, SplitDots(dotted))
  }

  /** parseOID fills the arcs one field at a time. */
  method ParseOidLoop(dotted: string) returns (oid: Option<Arcs>)
    ensures oid == ParseOid(dotted)
  {
    var fields := SplitDots(dotted);
    var arcs := [];
    for i := 0 to |fields|
      invariant |arcs| == i
      invariant forall j :: 0 <= j < i ==> Atoi(fields[j]) == Some(arcs[j])
    {
      var n := Atoi(fields[i]);
      if n.None? {
        return None;
      }
      arcs := arcs + [n.value];
    }
    oid := Some(arcs);
    assert forall j :: 0 <= j < |fields| ==> Atoi(fields[j]).Some?;
    assert ParseOid(dotted).value == arcs;
  }

  lemma ParsedArcs(dotted: string)
    requires ParseOid(dotted).Some?
    ensures forall i :: 0 <= i < |ParseOid(dotted).value| ==> Int64(ParseOid(dotted).value[i])
  {
    var fields := SplitDots(dotted);
    forall i | 0 <= i < |fields| ensures Int64(Atoi(fields[i]).value) {}
  }

  function Dotted(oid: seq<nat>): string
    requires oid != []
  {
    if |oid| == 1 then Itoa(oid[0]) else Itoa(oid[0]) + "." + Dotted(oid[1..])
  }

  lemma ItoaDotless(n: nat)
    ensures forall i :: 0 <= i < |Itoa(n)| ==> Itoa(n)[i] != '.'
  {
    var s := Itoa(n);
    forall i | 0 <= i < |s| ensures s[i] != '.' {
      assert IsDigit(s[i]);
    }
  }

  lemma ParseOne(field: string)
    ensures Traverse(Atoi, [field]) == if Atoi(field).None? then None else Some([Atoi(field).value])
  {
    hide Atoi;
    assert [field][0] == field;
    if Atoi(field).Some? {
      assert Traverse(Atoi, [field]).value == [Atoi(field).value];
    }
  }

  /** The usual spelling of an identifier is read as that identifier. */
  lemma {:induction false} ParseDotted(oid: seq<nat>)
    requires oid != [] && forall i :: 0 <= i < |oid| ==> oid[i] < TWO63
    ensures ParseOid(Dotted(oid)) == Some(oid)
    decreases |oid|
  {
    hide Itoa, Atoi, SplitDots, Traverse, Dotted;
    DottedCons(oid);
    if |oid| == 1 {
      ParseField(oid[0]);
      assert oid == [oid[0]];
    } else {
      ParseDotted(oid[1..]);
      ParseMore(oid[0], Dotted(oid[1..]), oid[1..]);
      assert oid == [oid[0]] + oid[1..];
    }
  }

  lemma DottedCons(oid: seq<nat>)
    requires oid != []
    ensures Dotted(oid) == if |oid| == 1 then Itoa(oid[0]) else Itoa(oid[0]) + "." + Dotted(oid[1..])
  {
  }

  lemma ParseField(n: nat)
    requires n < TWO63
    ensures ParseOid(Itoa(n)) == Some([n])
  {
    hide Itoa, Atoi, SplitDots, Traverse;
    ItoaDotless(n);
    AtoiOfItoa(n);
    SplitFirst(Itoa(n), "");
    ParseOne(Itoa(n));
  }

  lemma ParseMore(n: nat, rest: string, arcs: Arcs)
    requires n < TWO63 && ParseOid(rest) == Some(arcs)
    ensures ParseOid(Itoa(n) + "." + rest) == Some([n] + arcs)
  {
    hide Itoa, Atoi, SplitDots, Traverse;
    ItoaDotless(n);
    AtoiOfItoa(n);
    SplitFirst(Itoa(n), rest);
    TraverseCons(Atoi, Itoa(n), SplitDots(rest));
  }

  // -- Hexadecimal -----------------------------------------------------------------------

  function Nibble(c: char): Option<int> {
    if '0' <= c <= '9' then Some(c as int - '0' as int)
    else if 'a' <= c <= 'f' then Some(c as int - 'a' as int + 10)
    else if 'A' <= c <= 'F' then Some(c as int - 'A' as int + 10)
    else None
  }

  function HexDecode(s: string): Option<bytes> {
    if s == "" then Some([])
    else if |s| == 1 then None
    else
      match (Nibble(s[0]), Nibble(s[1]), HexDecode(s[2..]))
      case (Some(hi), Some(lo), Some(rest)) => Some([NibbleByte(hi, lo)] + rest)
      case _ => None
  }

  function NibbleByte(hi: int, lo: int): byte {
    (hi * 16 + lo) % 256
  }

  function HexDigit(n: int): char
    requires 0 <= n < 16
  {
    if n < 10 then (n + '0' as int) as char else (n - 10 + 'a' as int) as char
  }

  function HexEncode(data: bytes): string {
    if data == [] then "" else [HexDigit(data[0] / 16), HexDigit(data[0] % 16)] + HexEncode(data[1..])
  }

  lemma NibbleOfDigit(n: int)
    requires 0 <= n < 16
    ensures Nibble(HexDigit(n)) == Some(n)
  {
  }

  lemma {:induction false} HexRoundTrip(data: bytes)
    ensures HexDecode(HexEncode(data)) == Some(data)
  {
    if data != [] {
      HexRoundTrip(data[1..]);
      HexPair(data[0], HexEncode(data[1..]));
      hide HexDigit, HexDecode;
      assert data == [data[0]] + data[1..];
    }
  }

  lemma HexPair(b: byte, rest: string)
    ensures var s := [HexDigit(b / 16), HexDigit(b % 16)] + rest;
            HexDecode(s) == match HexDecode(rest) case Some(more) => Some([b] + more) case None => None
  {
    var hi, lo := HexDigit(b / 16), HexDigit(b % 16);
    NibbleOfDigit(b / 16);
    NibbleOfDigit(b % 16);
    assert NibbleByte(b / 16, b % 16) == b;
    var s := [hi, lo] + rest;
    assert s[0] == hi && s[1] == lo && s[2..] == rest;
    hide HexDigit, Nibble, NibbleByte;
  }

  predicate AllNibbles(s: string) {
    forall i :: 0 <= i < |s| ==> Nibble(s[i]).Some?
  }

  lemma NibblesPair(s: string)
    requires |s| >= 2
    ensures AllNibbles(s) <==> Nibble(s[0]).Some? && Nibble(s[1]).Some? && AllNibbles(s[2..])
  {
    hide Nibble;
    var rest := s[2..];
    if AllNibbles(rest) && Nibble(s[0]).Some? && Nibble(s[1]).Some? {
      forall i | 0 <= i < |s| ensures Nibble(s[i]).Some? {
        if i >= 2 {
          assert rest[i - 2] == s[i];
        }
      }
    }
  }

  /** Exactly the even-length strings of hexadecimal digits, of either case, are accepted. */
  lemma {:induction false} HexAccepted(s: string)
    ensures HexDecode(s).Some? <==> |s| % 2 == 0 && AllNibbles(s)
    decreases |s|
  {
    hide Nibble, NibbleByte;
    if |s| >= 2 {
      hide AllNibbles;
      HexAccepted(s[2..]);
      NibblesPair(s);
    }
  }
}
