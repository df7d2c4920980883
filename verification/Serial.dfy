/** Serial numbers: how they are drawn, their size, and the hexadecimal names made of them. */
module Serial {
  import opened Common
  import opened Der
  import opened Oid
  import opened Sorting
  import opened Text

  const SERIAL_BYTES := 20
  const WIDTH := 40

  // -- Drawing ---------------------------------------------------------------------

  function TopBit(random: bytes): nat
    requires |random| == SERIAL_BYTES
  {
    if random[0] < 128 then 0 else 128 * Pow256(SERIAL_BYTES - 1)
  }

  /** random stands for what the system's generator delivers, if it does not fail. */
  method Next(random: bytes, fails: bool) returns (serial: Option<nat>)
    requires |random| == SERIAL_BYTES
    ensures fails ==> serial == None
    ensures !fails ==> serial.Some? && 2 * serial.value < Pow256(SERIAL_BYTES)
    ensures !fails ==> serial.value < 0x8000000000000000000000000000000000000000
    ensures !fails ==> serial.value == FromBigEndian(random) - TopBit(random)
    ensures !fails ==> (serial.value > 0 <==> !(random[0] % 128 == 0 && AllZero(random[1..])))
  {
    var buf := new byte[SERIAL_BYTES](i => 0);
    if fails {
      return None;
    }
    for i := 0 to SERIAL_BYTES
      invariant buf[..i] == random[..i]
    {
      buf[i] := random[i];
    }
    assert buf[..] == random;
    ghost var top := random[0];
    buf[0] := buf[0] % 128;
    assert buf[..] == random[0 := top % 128];
    ClearTopBit(random);
    PositiveExactly(random);
    DrawnSerialFits(FromBigEndian(buf[..]));
    serial := Some(FromBigEndian(buf[..]));
  }

  lemma {:induction false} FirstDigit(s: bytes)
    requires s != []
    ensures FromBigEndian(s) == s[0] * Pow256(|s| - 1) + FromBigEndian(s[1..])
  {
    if |s| == 1 {
      assert s[..0] == [] && s[1..] == [];
    } else {
      var init := s[..|s| - 1];
      FirstDigit(init);
      assert init[1..] == s[1..][..|s| - 2];
      ShiftDigit(s[0], Pow256(|s| - 2), 256);
    }
  }

  lemma ShiftDigit(a: int, p: int, base: int)
    ensures a * (base * p) == (a * p) * base
  {
  }

  lemma ClearTopBit(random: bytes)
    requires |random| == SERIAL_BYTES
    ensures var serial := FromBigEndian(random[0 := random[0] % 128]);
            2 * serial < Pow256(SERIAL_BYTES) && serial == FromBigEndian(random) - TopBit(random)
  {
    var cleared := random[0 := random[0] % 128];
    var low := FromBigEndian(random[1..]);
    hide FromBigEndian, Pow256;
    FirstDigit(random);
    FirstDigit(cleared);
    assert cleared[1..] == random[1..];
    FromBigEndianBound(random[1..]);
    Pow256Step(SERIAL_BYTES - 1);
    HalfRange(random[0], Pow256(SERIAL_BYTES - 1), low);
  }

  lemma Pow256Step(k: nat)
    ensures Pow256(k + 1) == 256 * Pow256(k)
  {
  }

  lemma Scale(a: nat, b: nat, p: nat)
    ensures a <= b ==> a * p <= b * p
  {
    if a <= b {
      assert (b - a) * p >= 0;
    }
  }

  lemma Split128(r: nat, p: nat)
    ensures (128 + r) * p == 128 * p + r * p
  {
  }

  lemma HalfRange(a: nat, p: nat, low: nat)
    requires a < 256 && low < p
    ensures a % 128 * p + low < 128 * p
    ensures a % 128 * p + low == a * p + low - (if a < 128 then 0 else 128 * p)
  {
    Scale(a % 128, 127, p);
    Split128(a % 128, p);
    assert a == if a < 128 then a % 128 else 128 + a % 128;
  }

  predicate AllZero(s: bytes) {
    forall i :: 0 <= i < |s| ==> s[i] == 0
  }

  lemma {:induction false} ZeroValue(s: bytes)
    ensures FromBigEndian(s) == 0 <==> AllZero(s)
  {
    if s != [] {
      var init := s[..|s| - 1];
      ZeroValue(init);
      assert forall i :: 0 <= i < |init| ==> init[i] == s[i];
    }
  }

  /** The serial is positive, as section 4.1.2.2 of RFC 5280 asks, unless every bit but the top one is drawn zero. */
  lemma PositiveExactly(random: bytes)
    requires |random| == SERIAL_BYTES
    ensures FromBigEndian(random) - TopBit(random) > 0 <==> !(random[0] % 128 == 0 && AllZero(random[1..]))
  {
    var cleared := random[0 := random[0] % 128];
    hide FromBigEndian, Pow256, TopBit, AllZero;
    ClearTopBit(random);
    ZeroValue(cleared);
    AllZeroFirst(cleared);
    assert cleared[1..] == random[1..];
  }

  lemma AllZeroFirst(s: bytes)
    requires s != []
    ensures AllZero(s) <==> s[0] == 0 && AllZero(s[1..])
  {
    assert forall i :: 1 <= i < |s| ==> s[i] == s[1..][i - 1];
  }

  lemma TwoTo160()
    ensures Pow256(20) == 0x10000000000000000000000000000000000000000
  {
    Pow256Values();
    assert Pow256(5) == 0x10000000000;
    assert Pow256(6) == 0x1000000000000;
    assert Pow256(7) == 0x100000000000000;
    assert Pow256(8) == 0x10000000000000000;
    assert Pow256(9) == 0x1000000000000000000;
    assert Pow256(10) == 0x100000000000000000000;
    assert Pow256(11) == 0x10000000000000000000000;
    assert Pow256(12) == 0x1000000000000000000000000;
    assert Pow256(13) == 0x100000000000000000000000000;
    assert Pow256(14) == 0x10000000000000000000000000000;
    assert Pow256(15) == 0x1000000000000000000000000000000;
    assert Pow256(16) == 0x100000000000000000000000000000000;
    assert Pow256(17) == 0x10000000000000000000000000000000000;
    assert Pow256(18) == 0x1000000000000000000000000000000000000;
    assert Pow256(19) == 0x100000000000000000000000000000000000000;
  }

  /** Section 4.1.2.2 of RFC 5280: below 2^159 is at most 20 octets, and then the name has 40 characters. */
  lemma DrawnSerialFits(serial: nat)
    ensures 2 * serial < Pow256(SERIAL_BYTES) <==> |IntOctets(serial)| <= 20
    ensures 2 * serial < Pow256(SERIAL_BYTES) <==> serial < 0x8000000000000000000000000000000000000000
    ensures 2 * serial < Pow256(SERIAL_BYTES) ==> |SerialHex(serial)| == 40
  {
    hide IntOctets, SerialHex;
    TwoTo160();
    IntSize(serial, SERIAL_BYTES);
    Pow256Pow16(SERIAL_BYTES);
    HexWidth(serial);
    hide Pow256, Pow16;
  }

  /** What any 20 bytes give. */
  lemma DrawnFits(random: bytes)
    requires |random| == SERIAL_BYTES
    ensures var serial := FromBigEndian(random) - TopBit(random);
            0 <= serial && |IntOctets(serial)| <= 20 && |SerialHex(serial)| == 40
  {
    ClearTopBit(random);
    hide FromBigEndian, TopBit, IntOctets, SerialHex, Pow256;
    DrawnSerialFits(FromBigEndian(random) - TopBit(random));
  }

  /** Every number in range can be drawn. */
  lemma EverySerialDrawn(serial: nat) returns (random: bytes)
    requires 2 * serial < Pow256(SERIAL_BYTES)
    ensures |random| == SERIAL_BYTES && random[0] < 128 && FromBigEndian(random) == serial
  {
    hide FromBigEndian, Pow256, BigEndian;
    BigEndianSize(serial, SERIAL_BYTES);
    FromBigEndianOf(serial);
    var digits := BigEndian(serial);
    random := Zeros(SERIAL_BYTES - |digits|) + digits;
    ZerosLead(SERIAL_BYTES - |digits|, digits);
    FirstDigit(random);
    Pow256Step(SERIAL_BYTES - 1);
    Scale(128, random[0], Pow256(SERIAL_BYTES - 1));
  }

  function Zeros(n: nat): bytes {
    seq(n, i => 0)
  }

  lemma {:induction false} ZerosLead(n: nat, s: bytes)
    ensures FromBigEndian(Zeros(n) + s) == FromBigEndian(s)
    decreases n
  {
    if n == 0 {
      assert Zeros(0) + s == s;
    } else {
      var t := Zeros(n) + s;
      ZerosLead(n - 1, s);
      FirstDigit(t);
      assert t[1..] == Zeros(n - 1) + s;
    }
  }

  // -- Hexadecimal names ----------------------------------------------------------------

  predicate IsHex(c: char) {
    '0' <= c <= '9' || 'a' <= c <= 'f'
  }

  function DigitValue(c: char): nat
    requires IsHex(c)
  {
    if c <= '9' then c as int - '0' as int else c as int - 'a' as int + 10
  }

  lemma DigitOrder(c: char, d: char)
    requires IsHex(c) && IsHex(d)
    ensures c < d <==> DigitValue(c) < DigitValue(d)
    ensures DigitValue(c) < 16 && HexDigit(DigitValue(c)) == c
  {
  }

  predicate AllHex(s: string) {
    forall i :: 0 <= i < |s| ==> IsHex(s[i])
  }

  /** The digits of n, without leading zeros. */
  function Hex(n: nat): (s: string)
    ensures s != "" && AllHex(s)
  {
    if n < 16 then [HexDigit(n)] else Hex(n / 16) + [HexDigit(n % 16)]
  }

  function Pad(s: string, width: nat): (r: string)
    requires AllHex(s)
    ensures AllHex(r)
  {
    if |s| < width then seq(width - |s|, i => '0') + s else s
  }

  /** The verb "%040x": zero-padded to 40 characters, the sign first. */
  function SerialHex(serial: int): string {
    if serial >= 0 then Pad(Hex(serial), WIDTH) else "-" + Pad(Hex(-serial), WIDTH - 1)
  }

  function HexValue(s: string): nat
    requires AllHex(s)
  {
    if s == "" then 0 else HexValue(s[..|s| - 1]) * 16 + DigitValue(s[|s| - 1])
  }

  /** Reads a name back. */
  function ReadHex(s: string): int
    requires AllHex(s) || (s != "" && s[0] == '-' && AllHex(s[1..]))
  {
    if s != "" && s[0] == '-' then 0 - HexValue(s[1..]) else HexValue(s)
  }

  function Pow16(k: nat): nat {
    if k == 0 then 1 else 16 * Pow16(k - 1)
  }

  lemma {:induction false} Pow256Pow16(k: nat)
    ensures Pow256(k) == Pow16(2 * k)
  {
    if k > 0 {
      Pow256Pow16(k - 1);
      assert Pow16(2 * k) == 16 * Pow16(2 * k - 1);
    }
  }

  lemma {:induction false} HexValueOf(n: nat)
    ensures HexValue(Hex(n)) == n
  {
    var s := Hex(n);
    if n >= 16 {
      HexValueOf(n / 16);
      assert s[..|s| - 1] == Hex(n / 16);
    } else {
      assert s[..0] == "";
    }
  }

  lemma {:induction false} FirstHexDigit(s: string)
    requires s != "" && AllHex(s)
    ensures HexValue(s) == DigitValue(s[0]) * Pow16(|s| - 1) + HexValue(s[1..])
  {
    if |s| == 1 {
      assert s[..0] == "" && s[1..] == "";
    } else {
      var init := s[..|s| - 1];
      FirstHexDigit(init);
      assert init[1..] == s[1..][..|s| - 2];
      ShiftDigit(DigitValue(s[0]), Pow16(|s| - 2), 16);
    }
  }

  lemma {:induction false} HexValueBound(s: string)
    requires AllHex(s)
    ensures HexValue(s) < Pow16(|s|)
  {
    if s != "" {
      HexValueBound(s[..|s| - 1]);
    }
  }

  lemma {:induction false} PadValue(n: nat, s: string)
    requires AllHex(s)
    ensures AllHex(seq(n, i => '0') + s) && HexValue(seq(n, i => '0') + s) == HexValue(s)
    decreases n
  {
    var t := seq(n, i => '0') + s;
    if n == 0 {
      assert t == s;
    } else {
      PadValue(n - 1, s);
      FirstHexDigit(t);
      assert t[1..] == seq(n - 1, i => '0') + s;
    }
  }

  /** Names are read back, so no two serials share one. */
  lemma SerialHexRead(serial: int)
    ensures var s := SerialHex(serial);
              (AllHex(s) || (s != "" && s[0] == '-' && AllHex(s[1..]))) && ReadHex(s) == serial
  {
    var n := if serial < 0 then -serial else serial;
    var width := if serial < 0 then WIDTH - 1 else WIDTH;
    HexValueOf(n);
    if |Hex(n)| < width {
      PadValue(width - |Hex(n)|, Hex(n));
    }
    assert ("-" + Pad(Hex(n), width))[1..] == Pad(Hex(n), width);
  }

  /** Some names in full: lower case, zeros in front, the sign before them. */
  lemma SerialHexExamples()
    ensures SerialHex(0) == seq(39, i => '0') + "0"
    ensures SerialHex(0x1a2b) == seq(36, i => '0') + "1a2b"
    ensures SerialHex(-255) == "-" + (seq(37, i => '0') + "ff")
  {
    Digits4();
    hide Hex;
  }

  lemma Digits4()
    ensures Hex(0) == "0" && Hex(0x1a2b) == "1a2b" && Hex(255) == "ff"
  {
    assert Hex(0x1) == "1";
    assert Hex(0x1a) == "1a";
    assert Hex(0x1a2) == "1a2";
  }

  lemma SerialHexInjective(a: int, b: int)
    ensures SerialHex(a) == SerialHex(b) <==> a == b
  {
    SerialHexRead(a);
    SerialHexRead(b);
  }

  lemma {:induction false} HexSize(n: nat, k: nat)
    requires k > 0
    ensures |Hex(n)| <= k <==> n < Pow16(k)
  {
    if n >= 16 && k > 1 {
      HexSize(n / 16, k - 1);
    } else if n < 16 {
      Pow16Grows(1, k);
      assert Pow16(1) == 16;
    } else {
      assert Pow16(1) == 16;
    }
  }

  lemma {:induction false} Pow16Grows(j: nat, k: nat)
    requires j <= k
    ensures Pow16(j) <= Pow16(k)
  {
    if j < k {
      Pow16Grows(j, k - 1);
    }
  }

  /** The names are of fixed width exactly for these serials. */
  lemma HexWidth(serial: int)
    ensures |SerialHex(serial)| == WIDTH <==> 0 - Pow16(WIDTH - 1) < serial < Pow16(WIDTH)
  {
    if serial >= 0 {
      HexSize(serial, WIDTH);
      Pow16Grows(0, WIDTH - 1);
    } else {
      HexSize(-serial, WIDTH - 1);
      Pow16Grows(0, WIDTH);
    }
  }

  lemma {:induction false} LexIsNumeric(s: string, t: string)
    requires |s| == |t| && AllHex(s) && AllHex(t)
    ensures LexLe(s, t) <==> HexValue(s) <= HexValue(t)
  {
    if s != "" {
      FirstHexDigit(s);
      FirstHexDigit(t);
      LexIsNumeric(s[1..], t[1..]);
      HexValueBound(s[1..]);
      HexValueBound(t[1..]);
      DigitOrder(s[0], t[0]);
      DigitOrder(t[0], s[0]);
      Leading(DigitValue(s[0]), HexValue(s[1..]), DigitValue(t[0]), HexValue(t[1..]), Pow16(|s| - 1));
    }
  }

  lemma Leading(a: nat, x: nat, b: nat, y: nat, p: nat)
    requires x < p && y < p
    ensures a < b ==> a * p + x < b * p + y
    ensures b < a ==> b * p + y < a * p + x
  {
    if a < b {
      assert (a + 1) * p <= b * p;
    } else if b < a {
      assert (b + 1) * p <= a * p;
    }
  }

  /** Below 16^40 names sort as the numbers do. */
  lemma NamesSortAsNumbers(m: nat, n: nat)
    requires m < Pow16(WIDTH) && n < Pow16(WIDTH)
    ensures LexLe(SerialHex(m), SerialHex(n)) <==> m <= n
  {
    HexWidth(m);
    HexWidth(n);
    Pow16Grows(0, WIDTH - 1);
    SerialHexRead(m);
    SerialHexRead(n);
    assert AllHex(SerialHex(m)) && AllHex(SerialHex(n));
    LexIsNumeric(SerialHex(m), SerialHex(n));
  }

  predicate SortsBelow(bound: nat) {
    forall m: nat, n: nat :: m < bound && n < bound ==> (LexLe(SerialHex(m), SerialHex(n)) <==> m <= n)
  }

  /** Names sort as numbers below a bound exactly when the bound is at most 16^40. */
  lemma SortsExactly(bound: nat)
    ensures SortsBelow(bound) <==> bound <= Pow16(WIDTH)
  {
    hide SerialHex, LexLe, Pow16;
    if bound <= Pow16(WIDTH) {
      forall m: nat, n: nat | m < bound && n < bound ensures LexLe(SerialHex(m), SerialHex(n)) <==> m <= n {
        NamesSortAsNumbers(m, n);
      }
    } else {
      WiderNamesSortWrongly();
      var m, n := 2 * Pow16(WIDTH - 1), Pow16(WIDTH);
      assert !(LexLe(SerialHex(m), SerialHex(n)) <==> m <= n);
    }
  }

  /** Names of negative serials come before all others, and among themselves in reverse. */
  lemma NegativeNamesSortInReverse(m: int, n: int)
    requires m < 0
    ensures n >= 0 ==> LexLe(SerialHex(m), SerialHex(n)) && !LexLe(SerialHex(n), SerialHex(m))
    ensures n < 0 && 0 - Pow16(WIDTH - 1) < m && 0 - Pow16(WIDTH - 1) < n ==>
              (LexLe(SerialHex(m), SerialHex(n)) <==> n <= m)
  {
    var s, t := SerialHex(m), SerialHex(n);
    assert s[0] == '-';
    if n >= 0 {
      assert AllHex(t) && t != "" && IsHex(t[0]);
    } else if 0 - Pow16(WIDTH - 1) < m && 0 - Pow16(WIDTH - 1) < n {
      HexWidth(m);
      HexWidth(n);
      Pow16Grows(WIDTH - 1, WIDTH);
      SerialHexRead(m);
      SerialHexRead(n);
      hide SerialHex, HexValue, Pow16;
      LexIsNumeric(s[1..], t[1..]);
    }
  }

  lemma {:induction false} HexOfPower(d: nat, k: nat)
    requires 0 < d < 16
    ensures d * Pow16(k) > 0 && Hex(d * Pow16(k)) == [HexDigit(d)] + seq(k, i => '0')
  {
    hide Hex, HexDigit;
    if k == 0 {
      HexSmall(d);
    } else {
      HexOfPower(d, k - 1);
      var p := d * Pow16(k - 1);
      ShiftDigit(d, Pow16(k - 1), 16);
      HexShift(p);
    }
  }

  lemma HexSmall(d: nat)
    requires d < 16
    ensures Hex(d) == [HexDigit(d)]
  {
  }

  lemma HexShift(p: nat)
    requires p > 0
    ensures Hex(p * 16) == Hex(p) + "0"
  {
  }

  /** Not so from there on: 2 * 16^39 comes after 16^40. */
  lemma WiderNamesSortWrongly()
    ensures 2 * Pow16(WIDTH - 1) < Pow16(WIDTH)
    ensures !LexLe(SerialHex(2 * Pow16(WIDTH - 1)), SerialHex(Pow16(WIDTH)))
  {
    HexOfPower(2, WIDTH - 1);
    HexOfPower(1, WIDTH);
    Pow16Grows(0, WIDTH - 1);
    assert SerialHex(2 * Pow16(WIDTH - 1))[0] == '2' && SerialHex(Pow16(WIDTH))[0] == '1';
  }
}
