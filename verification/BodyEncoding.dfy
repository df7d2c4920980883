/**
 Request and response bodies: base64 wrapped at 76 characters with CRLF (section 6.8 of RFC 2045,
 section 3 of RFC 8951) on the way out; size cap, whitespace removal and decoding on the way in.
 */
module BodyEncoding {
  import opened Common
  import opened Base64
  import opened X509

  const MAX_BODY := 65536
  const LINE := 76
  const CRLF: bytes := [CR, LF]
  const TEXT_PLAIN := "text/plain; charset=utf-8"

  // -- Responses ------------------------------------------------------------------------

  /** Cut into lines of 76, the last possibly shorter. */
  function Lines(encoded: bytes): seq<bytes> {
    if encoded == [] then []
    else if |encoded| <= LINE then [encoded]
    else [encoded[..LINE]] + Lines(encoded[LINE..])
  }

  function JoinLines(lines: seq<bytes>): bytes {
    if lines == [] then [] else lines[0] + CRLF + JoinLines(lines[1..])
  }

  function Wrap(encoded: bytes): bytes {
    JoinLines(Lines(encoded))
  }

  class ResponseWriter {
    var status: nat
    var contentType: string
    var body: bytes

    constructor ()
      ensures body == []
    {
      status, contentType, body := 0, "", [];
    }

    method WriteHeader(code: nat)
      modifies this`status
      ensures status == code
    {
      status := code;
    }

    /** http.Error: a status and a line of plain text. */
    method Error(text: bytes, code: nat)
      modifies this
      ensures status == code && contentType == "text/plain; charset=utf-8" && body == old(body) + text + [LF]
    {
      contentType := TEXT_PLAIN;
      WriteHeader(code);
      WriteString(text);
      WriteString([LF]);
    }

    method WriteString(s: bytes)
      modifies this`body
      ensures body == old(body) + s
    {
      body := body + s;
    }
  }

  method WriteBase64Response(w: ResponseWriter, contentType: string, der: bytes)
    modifies w
    ensures w.status == 200 && w.contentType == contentType
    ensures w.body == old(w.body) + Wrap(Encode(der))
  {
    hide Wrap, Encode;
    var encoded := Encode(der);
    w.contentType := contentType;
    w.WriteHeader(200);
    var i := 0;
    ghost var start := w.body;
    ghost var done: bytes := [];
    while i < |encoded|
      invariant 0 <= i
      invariant w.status == 200 && w.contentType == contentType && w.body == start + done
      invariant Wrap(encoded) == done + Wrap(if i <= |encoded| then encoded[i..] else [])
    {
      var end := i + LINE;
      if end > |encoded| {
        end := |encoded|;
      }
      var line := encoded[i..end];
      WrapStep(encoded[i..]);
      assert encoded[i..][..|line|] == line && encoded[i..][|line|..] == encoded[end..];
      Regroup(done, line + CRLF, Wrap(encoded[end..]));
      w.WriteString(line);
      w.WriteString(CRLF);
      done := done + (line + CRLF);
      i := i + LINE;
      assert encoded[|encoded|..] == [];
    }
    WrapNothing();
    assert (if i <= |encoded| then encoded[i..] else []) == [];
    Regroup(done, [], []);
  }

  lemma WrapNothing()
    ensures Wrap([]) == []
  {
  }

  lemma WrapStep(s: bytes)
    requires s != []
    ensures var n := if |s| <= LINE then |s| else LINE; Wrap(s) == s[..n] + CRLF + Wrap(s[n..])
  {
    if |s| <= LINE {
      assert s[..|s|] == s && Lines(s)[1..] == [];
    } else {
      assert Lines(s)[1..] == Lines(s[LINE..]);
    }
  }

  /** Seventy-six characters a line, and a carriage return and a line feed after each. */
  lemma WrapLayout(s: bytes)
    ensures s == [] ==> Wrap(s) == []
    ensures 0 < |s| <= 76 ==> Wrap(s) == s + [0x0d, 0x0a]
    ensures |s| > 76 ==> Wrap(s) == s[..76] + [0x0d, 0x0a] + Wrap(s[76..])
  {
    if s != [] {
      WrapStep(s);
      if |s| <= 76 {
        assert s[..|s|] == s && s[|s|..] == [];
        WrapNothing();
      }
    }
  }

  /** All lines but the last are full, the last is not empty, and together they are the input. */
  lemma {:induction false} LineShapes(encoded: bytes)
    ensures var lines := Lines(encoded);
            && (lines == [] <==> encoded == [])
            && (forall i :: 0 <= i < |lines| - 1 ==> |lines[i]| == 76)
            && (lines != [] ==> 1 <= |lines[|lines| - 1]| <= 76)
            && Flatten(lines) == encoded
            && |lines| == (|encoded| + 75) / 76
    decreases |encoded|
  {
    if |encoded| > LINE {
      LineShapes(encoded[LINE..]);
      var rest := Lines(encoded[LINE..]);
      assert Lines(encoded)[1..] == rest;
      assert forall i :: 1 <= i < |rest| + 1 ==> Lines(encoded)[i] == rest[i - 1];
      assert encoded == encoded[..LINE] + encoded[LINE..];
    } else if encoded != [] {
      assert Flatten([encoded]) == encoded + Flatten([]);
    }
  }

  lemma {:induction false} JoinLength(lines: seq<bytes>)
    ensures |JoinLines(lines)| == |Flatten(lines)| + 2 * |lines|
  {
    if lines != [] {
      JoinLength(lines[1..]);
    }
  }

  function WrappedLength(n: nat): nat {
    var encoded := (n + 2) / 3 * 4;
    encoded + 2 * ((encoded + LINE - 1) / LINE)
  }

  lemma WrappedLengthOf(der: bytes)
    ensures |Wrap(Encode(der))| == WrappedLength(|der|)
  {
    EncodeLength(der);
    LineShapes(Encode(der));
    JoinLength(Lines(Encode(der)));
  }

  /** More data never makes a shorter body, so the cap falls at one size. */
  lemma WrappedFits(n: nat)
    ensures WrappedLength(n) <= WrappedLength(n + 1)
    ensures WrappedLength(n) <= 65536 <==> n <= 47889
  {
    assert WrappedLength(47889) == 65534 && WrappedLength(47890) == 65538;
    if n <= 47889 {
      WrappedMonotone(n, 47889);
    } else {
      WrappedMonotone(47890, n);
    }
    WrappedMonotone(n, n + 1);
  }

  lemma WrappedMonotone(m: nat, n: nat)
    requires m <= n
    ensures WrappedLength(m) <= WrappedLength(n)
  {
    assert (m + 2) / 3 <= (n + 2) / 3;
  }

  // -- Whitespace, rune by rune -----------------------------------------------------------------

  predicate IsSpace(r: int) {
    r == 0x20 || r == 0x09 || r == 0x0d || r == 0x0a
  }

  datatype Rune = Rune(value: nat, width: nat)

  const RUNE_ERROR := 0xfffd

  /** The second bytes allowed after a leading byte of a two, three or four byte sequence. */
  predicate Second2(b0: byte, b1: byte) {
    if b0 == 0xe0 then 0xa0 <= b1 <= 0xbf
    else if b0 == 0xed then 0x80 <= b1 <= 0x9f
    else if b0 == 0xf0 then 0x90 <= b1 <= 0xbf
    else if b0 == 0xf4 then 0x80 <= b1 <= 0x8f
    else 0x80 <= b1 <= 0xbf
  }

  function SequenceLength(b0: byte): nat {
    if b0 < 0x80 then 1
    else if 0xc2 <= b0 <= 0xdf then 2
    else if 0xe0 <= b0 <= 0xef then 3
    else if 0xf0 <= b0 <= 0xf4 then 4
    else 0
  }

  predicate Continuation(b: byte) {
    0x80 <= b <= 0xbf
  }

  function Low(b: byte, size: nat): nat
    requires size > 0
  {
    b % size
  }

  /** One step of a range over a string: a malformed sequence gives the replacement rune and consumes one byte. */
  function DecodeRune(s: bytes): Rune
    requires s != []
  {
    var n := SequenceLength(s[0]);
    if n == 1 then Rune(s[0], 1)
    else if n == 0 || |s| < n || !Second2(s[0], s[1]) then Rune(RUNE_ERROR, 1)
    else if n == 2 then Rune(Low(s[0], 32) * 64 + Low(s[1], 64), 2)
    else if !Continuation(s[2]) then Rune(RUNE_ERROR, 1)
    else if n == 3 then Rune(Low(s[0], 16) * 4096 + Low(s[1], 64) * 64 + Low(s[2], 64), 3)
    else if !Continuation(s[3]) then Rune(RUNE_ERROR, 1)
    else Rune(Low(s[0], 8) * 262144 + Low(s[1], 64) * 4096 + Low(s[2], 64) * 64 + Low(s[3], 64), 4)
  }

  function Cont(bits: nat): byte {
    0x80 + bits % 64
  }

  function Lead(mark: nat, bits: nat): byte
    requires mark + bits < 256
  {
    mark + bits
  }

  function EncodeRune(r: nat): bytes {
    if r < 0x80 then [r]
    else if r < 0x800 then [Lead(0xc0, r / 64), Cont(r)]
    else if r > 0x10ffff || 0xd800 <= r <= 0xdfff then [0xef, 0xbf, 0xbd]
    else if r < 0x10000 then [Lead(0xe0, r / 4096), Cont(r / 64), Cont(r)]
    else [Lead(0xf0, r / 262144), Cont(r / 4096), Cont(r / 64), Cont(r)]
  }

  lemma DecodeRuneWidth(s: bytes)
    requires s != []
    ensures 1 <= DecodeRune(s).width <= |s|
  {
  }

  /** Every Unicode scalar value is read from its UTF-8 form. */
  lemma Utf8Read(r: nat, t: bytes)
    requires r < 0xd800 || 0xe000 <= r < 0x110000
    ensures DecodeRune(EncodeRune(r) + t) == Rune(r, |EncodeRune(r)|)
  {
    var s := EncodeRune(r) + t;
    assert forall i :: 0 <= i < |EncodeRune(r)| ==> s[i] == EncodeRune(r)[i];
    if r < 0x80 {
    } else if r < 0x800 {
      Read2(r, s);
    } else if r < 0x10000 {
      Read3(r, s);
    } else {
      Read4(r, s);
    }
  }

  lemma Read2(r: nat, s: bytes)
    requires 0x80 <= r < 0x800 && |s| >= 2 && s[0] as int == 0xc0 + r / 64 && s[1] as int == 0x80 + r % 64
    ensures DecodeRune(s) == Rune(r, 2)
  {
  }

  lemma Read3(r: nat, s: bytes)
    requires 0x800 <= r < 0x10000 && !(0xd800 <= r < 0xe000) && |s| >= 3
    requires s[0] as int == 0xe0 + r / 4096 && s[1] as int == 0x80 + r / 64 % 64 && s[2] as int == 0x80 + r % 64
    ensures DecodeRune(s) == Rune(r, 3)
  {
    assert r / 4096 == r / 64 / 64;
  }

  lemma Read4(r: nat, s: bytes)
    requires 0x10000 <= r < 0x110000 && |s| >= 4
    requires s[0] as int == 0xf0 + r / 262144 && s[1] as int == 0x80 + r / 4096 % 64
    requires s[2] as int == 0x80 + r / 64 % 64 && s[3] as int == 0x80 + r % 64
    ensures DecodeRune(s) == Rune(r, 4)
  {
    var high, mid := r / 4096, r / 64;
    assert mid == high * 64 + mid % 64 && r == mid * 64 + r % 64;
    assert r / 262144 == high / 64 && high == high / 64 * 64 + high % 64;
    assert 0x10 <= high < 0x110;
    FourIs(s);
    LowBits(r / 262144, 0xf0, 8);
    LowBits(high % 64, 0x80, 64);
    LowBits(mid % 64, 0x80, 64);
    LowBits(r % 64, 0x80, 64);
    hide DecodeRune, Low;
  }

  lemma LowBits(v: nat, mark: nat, size: nat)
    requires v < size && (size == 8 || size == 64) && mark % size == 0 && mark + v < 256
    ensures Low(mark + v, size) == v
  {
  }

  /** A four byte sequence is decoded by its low bits. */
  lemma FourIs(s: bytes)
    requires |s| >= 4 && 0xf0 <= s[0] <= 0xf4 && Second2(s[0], s[1]) && Continuation(s[2]) && Continuation(s[3])
    ensures DecodeRune(s)
         == Rune(Low(s[0], 8) * 262144 + Low(s[1], 64) * 4096 + Low(s[2], 64) * 64 + Low(s[3], 64), 4)
  {
    hide Low;
  }

  lemma Utf8Examples()
    ensures EncodeRune(0x41) == [0x41] && EncodeRune(0xe9) == [0xc3, 0xa9]
    ensures EncodeRune(0x20ac) == [0xe2, 0x82, 0xac] && EncodeRune(0x1f600) == [0xf0, 0x9f, 0x98, 0x80]
    ensures EncodeRune(0xfffd) == [0xef, 0xbf, 0xbd]
  {
  }

  function StripRunes(s: bytes): bytes
    decreases |s|
  {
    if s == [] then []
    else
      var r := DecodeRune(s);
      DecodeRuneWidth(s);
      (if IsSpace(r.value) then [] else EncodeRune(r.value)) + StripRunes(s[r.width..])
  }

  method StripWhitespace(s: bytes) returns (out: bytes)
    ensures out == StripRunes(s)
  {
    hide DecodeRune, EncodeRune, IsSpace;
    out := [];
    var i := 0;
    while i < |s|
      invariant 0 <= i <= |s|
      invariant StripRunes(s) == out + StripRunes(s[i..])
      decreases |s| - i
    {
      var r := DecodeRune(s[i..]);
      DecodeRuneWidth(s[i..]);
      assert s[i..][r.width..] == s[i + r.width..];
      ghost var rest := StripRunes(s[i + r.width..]);
      Regroup(out, EncodeRune(r.value), rest);
      Regroup(out, [], rest);
      if !IsSpace(r.value) {
        out := out + EncodeRune(r.value);
      }
      i := i + r.width;
    }
    assert s[i..] == [];
    Regroup(out, [], []);
  }

  lemma Regroup(a: bytes, b: bytes, c: bytes)
    ensures a + (b + c) == (a + b) + c && a + [] == a
  {
  }

  function StripBytes(s: bytes): bytes {
    if s == [] then [] else (if IsSpace(s[0]) then [] else [s[0]]) + StripBytes(s[1..])
  }

  predicate Ascii(s: bytes) {
    forall i :: 0 <= i < |s| ==> s[i] < 128
  }

  lemma {:induction false} StripAscii(s: bytes)
    requires Ascii(s)
    ensures StripRunes(s) == StripBytes(s)
  {
    if s != [] {
      StripAscii(s[1..]);
    }
  }

  /** A well-formed sequence is written back as it was read; either way no ASCII comes of a high byte. */
  lemma HighRune(s: bytes)
    requires s != [] && s[0] >= 128
    ensures DecodeRune(s).value >= 128
    ensures DecodeRune(s) == Rune(RUNE_ERROR, 1) || EncodeRune(DecodeRune(s).value) == s[..DecodeRune(s).width]
  {
    var r := DecodeRune(s);
    var a: int, b: int := s[0], if |s| > 1 then s[1] else 0;
    var c: int, d: int := if |s| > 2 then s[2] else 0, if |s| > 3 then s[3] else 0;
    if r.width == 2 {
      TwoBytes(a, b);
      assert s[..2] == [s[0], s[1]];
    } else if r.width == 3 {
      ThreeBytes(a, b, c);
      assert s[..3] == [s[0], s[1], s[2]];
    } else if r.width == 4 {
      FourBytes(a, b, c, d);
      assert s[..4] == [s[0], s[1], s[2], s[3]];
    }
  }

  lemma TwoBytes(a: int, b: int)
    requires 0xc2 <= a <= 0xdf && 0x80 <= b <= 0xbf
    ensures var r := a % 32 * 64 + b % 64; 128 <= r && EncodeRune(r) == [a, b]
  {
    Pack(a % 32, b % 64);
    Cont64(b, a % 32 * 64 + b % 64);
    hide Cont;
  }

  lemma ThreeBytes(a: int, b: int, c: int)
    requires 0xe0 <= a <= 0xef && 0x80 <= b <= 0xbf && 0x80 <= c <= 0xbf && Second2(a, b)
    ensures var r := a % 16 * 4096 + b % 64 * 64 + c % 64; 128 <= r && EncodeRune(r) == [a, b, c]
  {
    var r := a % 16 * 4096 + b % 64 * 64 + c % 64;
    Pack(a % 16, b % 64);
    Pack(a % 16 * 64 + b % 64, c % 64);
    hide Cont;
    assert r / 64 == a % 16 * 64 + b % 64 && r / 4096 == a % 16;
    Cont64(b, r / 64);
    Cont64(c, r);
  }

  lemma FourBytes(a: int, b: int, c: int, d: int)
    requires 0xf0 <= a <= 0xf4 && 0x80 <= b <= 0xbf && 0x80 <= c <= 0xbf && 0x80 <= d <= 0xbf && Second2(a, b)
    ensures var r := a % 8 * 262144 + b % 64 * 4096 + c % 64 * 64 + d % 64;
            128 <= r && EncodeRune(r) == [a, b, c, d]
  {
    var r := a % 8 * 262144 + b % 64 * 4096 + c % 64 * 64 + d % 64;
    var high := a % 8 * 64 + b % 64;
    Pack(a % 8, b % 64);
    Pack(high, c % 64);
    Pack(high * 64 + c % 64, d % 64);
    hide Cont;
    assert r / 64 == high * 64 + c % 64 && r / 4096 == high && r / 262144 == a % 8;
    Cont64(b, r / 4096);
    Cont64(c, r / 64);
    Cont64(d, r);
  }

  lemma Pack(high: nat, low: nat)
    requires low < 64
    ensures (high * 64 + low) / 64 == high && (high * 64 + low) % 64 == low
  {
  }

  lemma Cont64(b: byte, bits: nat)
    requires Continuation(b) && bits % 64 == b % 64
    ensures Cont(bits) == b
  {
  }

  lemma HighRuneBytes(r: nat)
    requires r >= 128
    ensures EncodeRune(r) != [] && EncodeRune(r)[0] >= 128 && !IsSpace(r)
  {
  }

  lemma {:induction false} StripRunesHigh(s: bytes)
    requires !Ascii(s)
    ensures !Ascii(StripRunes(s))
    decreases |s|
  {
    hide EncodeRune, IsSpace;
    var r := DecodeRune(s);
    DecodeRuneWidth(s);
    if s[0] >= 128 {
      HighRune(s);
      HighRuneBytes(r.value);
      assert StripRunes(s)[0] >= 128;
    } else {
      var rest := StripRunes(s[1..]);
      StripRunesHigh(s[1..]);
      var i :| 0 <= i < |rest| && rest[i] >= 128;
      assert StripRunes(s)[|StripRunes(s)| - |rest| + i] == rest[i];
    }
  }

  lemma {:induction false} StripBytesHigh(s: bytes)
    requires !Ascii(s)
    ensures !Ascii(StripBytes(s))
    decreases |s|
  {
    if s[0] >= 128 {
      assert StripBytes(s)[0] >= 128;
    } else {
      var rest := StripBytes(s[1..]);
      StripBytesHigh(s[1..]);
      var i :| 0 <= i < |rest| && rest[i] >= 128;
      assert StripBytes(s)[|StripBytes(s)| - |rest| + i] == rest[i];
    }
  }

  lemma {:induction false} DropNewlinesHigh(s: bytes)
    requires !Ascii(s)
    ensures !Ascii(DropNewlines(s))
    decreases |s|
  {
    if s[0] >= 128 {
      assert DropNewlines(s)[0] >= 128;
    } else {
      var rest := DropNewlines(s[1..]);
      DropNewlinesHigh(s[1..]);
      var i :| 0 <= i < |rest| && rest[i] >= 128;
      assert DropNewlines(s)[|DropNewlines(s)| - |rest| + i] == rest[i];
    }
  }

  lemma HighRejected(s: bytes)
    requires !Ascii(s)
    ensures Decode(s) == None
  {
    DropNewlinesHigh(s);
    var t := DropNewlines(s);
    var i :| 0 <= i < |t| && t[i] >= 128;
    ForeignByte(t, i);
  }

  /** Going rune by rune, rewriting what is not UTF-8, decodes exactly as going byte by byte. */
  lemma RunesAsBytes(s: bytes)
    ensures Decode(StripRunes(s)) == Decode(StripBytes(s))
  {
    if Ascii(s) {
      StripAscii(s);
    } else {
      StripRunesHigh(s);
      StripBytesHigh(s);
      HighRejected(StripRunes(s));
      HighRejected(StripBytes(s));
    }
  }

  // -- Requests -------------------------------------------------------------------------------

  /** What is read is at most one byte over the cap. */
  method DecodeCsrBody(incoming: bytes, readFails: bool, parse: RequestParser) returns (r: Option<Request>)
    ensures r == if readFails then None else BodyRequest(incoming, parse)
  {
    if readFails {
      return None;
    }
    var body := if |incoming| > MAX_BODY + 1 then incoming[..MAX_BODY + 1] else incoming;
    if |body| > MAX_BODY {
      return None;
    }
    var stripped := StripWhitespace(body);
    var der := Decode(stripped);
    r := if der.None? then None else parse(der.value);
  }

  function BodyRequest(body: bytes, parse: RequestParser): Option<Request> {
    if |body| > MAX_BODY then None
    else match Decode(StripRunes(body)) case Some(der) => parse(der) case None => None
  }

  function Kept(b: byte): bytes {
    if IsSpace(b) then [] else [b]
  }

  lemma StripHead(s: bytes)
    requires s != []
    ensures StripBytes(s) == Kept(s[0]) + StripBytes(s[1..])
  {
  }

  lemma {:induction false} StripConcat(a: bytes, b: bytes)
    ensures StripBytes(a + b) == StripBytes(a) + StripBytes(b)
  {
    if a == [] {
      assert a + b == b;
    } else {
      StripConcat(a[1..], b);
      StripHead(a);
      StripHead(a + b);
      hide IsSpace, StripBytes, Kept;
      assert (a + b)[1..] == a[1..] + b;
      Regroup(Kept(a[0]), StripBytes(a[1..]), StripBytes(b));
    }
  }

  /** A space, tab, carriage return or line feed anywhere in a body makes no difference. */
  lemma WhitespaceIgnored(a: bytes, c: byte, b: bytes)
    requires c == 0x20 || c == 0x09 || c == 0x0d || c == 0x0a
    ensures Decode(StripRunes(a + [c] + b)) == Decode(StripRunes(a + b))
  {
    RunesAsBytes(a + [c] + b);
    RunesAsBytes(a + b);
    assert [c][1..] == [] && StripBytes([c]) == [] + StripBytes([]);
    hide StripBytes, StripRunes, Decode;
    StripConcat(a + [c], b);
    StripConcat(a, [c]);
    StripConcat(a, b);
    assert StripBytes(a) + [] == StripBytes(a);
  }

  lemma WhitespaceInBody(a: bytes, c: byte, b: bytes, parse: RequestParser)
    requires c == 0x20 || c == 0x09 || c == 0x0d || c == 0x0a
    requires |a| + 1 + |b| <= 65536
    ensures BodyRequest(a + [c] + b, parse) == BodyRequest(a + b, parse)
  {
    hide StripRunes, Decode;
    WhitespaceIgnored(a, c, b);
  }

  /** Nothing else of an ASCII string is removed or changed. */
  lemma {:induction false} NothingElseStripped(s: bytes)
    requires forall i :: 0 <= i < |s| ==>
               s[i] < 128 && s[i] != 0x20 && s[i] != 0x09 && s[i] != 0x0d && s[i] != 0x0a
    ensures StripRunes(s) == s
  {
    if s != [] {
      NothingElseStripped(s[1..]);
      assert s == [s[0]] + s[1..];
      assert DecodeRune(s) == Rune(s[0], 1) && EncodeRune(s[0]) == [s[0]];
    }
  }

  /** The cap is on the body as sent, and one byte decides. */
  lemma CapExactly(body: bytes, parse: RequestParser)
    ensures |body| > 65536 ==> BodyRequest(body, parse) == None
    ensures |body| <= 65536 ==>
              BodyRequest(body, parse) == match Decode(StripRunes(body)) case Some(der) => parse(der) case None => None
  {
  }

  /** A byte that begins no well-formed sequence is rewritten as the replacement character. */
  lemma MalformedRewritten(b: byte, rest: bytes)
    requires b >= 128 && (rest == [] || rest[0] < 128)
    ensures StripRunes([b] + rest) == [0xef, 0xbf, 0xbd] + StripRunes(rest)
  {
    var s := [b] + rest;
    assert s[1..] == rest && DecodeRune(s) == Rune(0xfffd, 1);
    assert EncodeRune(0xfffd) == [0xef, 0xbf, 0xbd];
  }

  lemma {:induction false} StripPrintable(s: bytes)
    requires Printable(s)
    ensures StripBytes(s) == s
  {
    if s != [] {
      StripPrintable(s[1..]);
      assert s == [s[0]] + s[1..];
    }
  }

  lemma StripCrlf()
    ensures StripBytes(CRLF) == [] && Ascii(CRLF)
  {
    assert CRLF[1..] == [LF] && [LF][1..] == [];
    assert StripBytes([LF]) == [] + StripBytes([]);
  }

  lemma {:induction false} StripWrapped(s: bytes)
    requires Printable(s)
    ensures StripBytes(Wrap(s)) == s && Ascii(Wrap(s))
    decreases |s|
  {
    hide Wrap, StripBytes;
    if s == [] {
      WrapNothing();
      StripPrintable([]);
    } else {
      var n := if |s| <= LINE then |s| else LINE;
      WrapStep(s);
      StripWrapped(s[n..]);
      StripPrintable(s[..n]);
      StripConcat(s[..n] + CRLF, Wrap(s[n..]));
      StripConcat(s[..n], CRLF);
      StripCrlf();
      assert s == s[..n] + s[n..];
    }
  }

  /** What the server writes for der is unwrapped and decoded to der. */
  lemma WrapRoundTrip(der: bytes)
    ensures Decode(StripRunes(Wrap(Encode(der)))) == Some(der)
  {
    EncodePrintable(der);
    StripWrapped(Encode(der));
    StripAscii(Wrap(Encode(der)));
    DecodeEncode(der);
  }

  /** A request wrapped the same way is taken exactly when its DER is at most 47889 bytes long. */
  lemma WrappedRequest(der: bytes, parse: RequestParser)
    ensures BodyRequest(Wrap(Encode(der)), parse) == if |der| <= 47889 then parse(der) else None
  {
    WrapRoundTrip(der);
    WrappedLengthOf(der);
    WrappedFits(|der|);
  }
}
