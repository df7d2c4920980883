/**
 The byte builder: one growing buffer, in which an element's length octet is reserved when
 the element is opened and filled in, with the content moved along, once its body is written.
 Its result is proved to be that of a pure encoder in which lengths are known beforehand.
 */
module Builder {
  import opened Common
  import opened Der
  import opened Oid

  // -- The pure encoder ----------------------------------------------------------

  // Bytes written, or none once any write has failed.
  type Wire = Option<bytes>

  function Cat(a: Wire, b: Wire): Wire {
    if a.None? || b.None? then None else Some(a.value + b.value)
  }

  function Elem(tag: byte, body: Wire): Wire {
    if body.None? || !LowTag(tag) || |body.value| > MAX_CONTENT then None
    else Some(Tlv(tag, body.value))
  }

  lemma CatAssoc(a: Wire, b: Wire, c: Wire)
    ensures Cat(Cat(a, b), c) == Cat(a, Cat(b, c))
  {
    if a.Some? && b.Some? && c.Some? {
      assert (a.value + b.value) + c.value == a.value + (b.value + c.value);
    }
  }

  lemma CatEmpty(a: Wire)
    ensures Cat(a, Some([])) == a && Cat(Some([]), a) == a
  {
    if a.Some? {
      assert a.value + [] == a.value && [] + a.value == a.value;
    }
  }

  // The calls a continuation makes on its builder, nested to any depth.
  datatype Call = Raw(data: bytes) | Fail | Asn1(tag: byte, body: seq<Call>)

  function Written(c: Call): Wire
    decreases c, 1
  {
    match c
    case Raw(data) => Some(data)
    case Fail => None
    case Asn1(tag, body) => Elem(tag, WrittenAll(body))
  }

  function WrittenAll(cs: seq<Call>): Wire
    decreases cs, 0
  {
    if cs == [] then Some([]) else Cat(Written(cs[0]), WrittenAll(cs[1..]))
  }

  function Opened(before: Wire, tag: byte): Wire {
    Cat(before, if LowTag(tag) then Some([tag, 0]) else None)
  }

  // -- The single-buffer writer -----------------------------------------------------

  class Builder {
    var result: bytes
    var failed: bool

    constructor ()
      ensures Out() == Some([])
    {
      result, failed := [], false;
    }

    ghost function Out(): Wire
      reads this
    {
      if failed then None else Some(result)
    }

    method Bytes() returns (r: Wire)
      ensures r == Out()
    {
      r := if failed then None else Some(result);
    }

    method SetError()
      modifies this
      ensures Out() == None
    {
      failed := true;
    }

    method AddBytes(data: bytes)
      modifies this
      ensures Out() == Cat(old(Out()), Some(data))
    {
      if !failed {
        result := result + data;
      }
    }

    /** Writes the tag and one octet held back for the length; mark is that octet's position. */
    method Open(tag: byte) returns (mark: nat)
      modifies this
      ensures Out() == Opened(old(Out()), tag)
      ensures old(Out()).Some? ==> mark == |old(Out()).value| + 1
    {
      mark := |result| + 1;
      if !LowTag(tag) {
        failed := true;
      } else if !failed {
        result := result + [tag, 0];
      }
    }

    /** Fills in the length of the element opened at mark, shifting its content for a long form. */
    method Close(mark: nat, ghost before: Wire, ghost tag: byte, ghost body: Wire)
      requires Out() == Cat(Opened(before, tag), body)
      requires before.Some? ==> mark == |before.value| + 1
      modifies this
      ensures Out() == Cat(before, Elem(tag, body))
    {
      if failed {
        return;
      }
      var length := |result| - mark - 1;
      ghost var content := body.value;
      assert length == |content| && result[mark + 1..] == content;
      assert result[..mark] == before.value + [tag];
      if length > MAX_CONTENT {
        failed := true;
      } else if length <= 0x7f {
        result := result[mark := length];
        assert result == before.value + ([tag] + [length] + content);
      } else {
        CloseLong(mark, length);
        LengthOctetsSize(length);
        assert result == before.value + ([tag] + LengthOctets(length) + content);
      }
    }

    method CloseLong(mark: nat, length: nat)
      requires !failed && |result| == mark + 1 + length && 0x7f < length <= MAX_CONTENT
      modifies this
      ensures !failed && result == old(result[..mark]) + LengthOctets(length) + old(result[mark + 1..])
    {
      var extra :=
        if length > 0xff_ffff then 4 else if length > 0xffff then 3 else if length > 0xff then 2 else 1;
      ExtraOctets(length, extra);
      ghost var head, content := result[..mark] + [128 + extra], result[mark + 1..];
      result := result[mark := 128 + extra];
      MakeRoom(mark + 1, extra);
      assert result[..mark + 1] == head && result[mark + 1 + extra..] == content;
      FillLength(mark + 1, extra, length);
      assert result == head + BigEndian(length) + content;
      assert head + BigEndian(length) == old(result[..mark]) + LengthOctets(length);
    }

    /** Grows the buffer and moves everything from start on by extra positions. */
    method MakeRoom(start: nat, extra: nat)
      requires start <= |result|
      modifies this`result
      ensures |result| == old(|result|) + extra
      ensures result[..start] == old(result[..start]) && result[start + extra..] == old(result[start..])
    {
      result := result + seq(extra, _ => 0);
      result := result[..start + extra] + result[start..|result| - extra];
    }

    /** Writes a length into the octets held for it, last octet first. */
    method FillLength(start: nat, count: nat, length: nat)
      requires start + count <= |result| && |BigEndian(length)| == count
      modifies this`result
      ensures result == old(result[..start]) + BigEndian(length) + old(result[start + count..])
    {
      var l, i := length, count;
      while i > 0
        invariant 0 <= i <= count && |result| == old(|result|)
        invariant result[..start] == old(result[..start])
        invariant result[start + count..] == old(result[start + count..])
        invariant l >= 0 && |BigEndian(l)| == i
        invariant BigEndian(length) == BigEndian(l) + result[start + i..start + count]
      {
        i := i - 1;
        ghost var rest := result[start + i + 1..start + count];
        result := result[start + i := l % 256];
        assert result[start + i..start + count] == [l % 256] + rest;
        l := l / 256;
      }
      assert result == result[..start] + result[start..start + count] + result[start + count..];
    }

    /** Runs any nest of calls; what it appends is what the pure encoder says. */
    method Run(calls: seq<Call>)
      modifies this
      ensures Out() == Cat(old(Out()), WrittenAll(calls))
      decreases calls
    {
      var i := 0;
      ghost var start := Out();
      CatEmpty(start);
      while i < |calls|
        invariant 0 <= i <= |calls|
        invariant Out() == Cat(start, WrittenAll(calls[..i]))
      {
        ghost var before := Out();
        match calls[i] {
          case Raw(data) => AddBytes(data);
          case Fail => SetError();
          case Asn1(tag, body) =>
            var mark := Open(tag);
            Run(body);
            Close(mark, before, tag, WrittenAll(body));
        }
        WrittenSnoc(calls[..i], calls[i]);
        CatAssoc(start, WrittenAll(calls[..i]), Written(calls[i]));
        assert calls[..i + 1] == calls[..i] + [calls[i]];
        i := i + 1;
      }
      assert calls[..i] == calls;
    }

    // -- The typed writers ----------------------------------------------------------

    /** One primitive element. */
    method AddPrimitive(tag: byte, content: bytes)
      modifies this
      ensures Out() == Cat(old(Out()), Elem(tag, Some(content)))
    {
      ghost var before := Out();
      var mark := Open(tag);
      AddBytes(content);
      Close(mark, before, tag, Some(content));
    }

    method AddInt64(v: int)
      modifies this
      ensures Out() == Cat(old(Out()), IntWire(v))
    {
      AddPrimitive(INTEGER, IntOctets(v));
    }

    method AddBooleanTrue()
      modifies this
      ensures Out() == Cat(old(Out()), TrueWire())
    {
      AddPrimitive(BOOLEAN, [0xff]);
    }

    method AddOctetString(data: bytes)
      modifies this
      ensures Out() == Cat(old(Out()), Elem(OCTET_STRING, Some(data)))
    {
      AddPrimitive(OCTET_STRING, data);
    }

    method AddObjectIdentifier(oid: Arcs)
      modifies this
      ensures Out() == Cat(old(Out()), OidWire(oid))
    {
      if BuilderAccepts(oid) {
        AddPrimitive(OBJECT_IDENTIFIER, OidOctets(oid));
      } else {
        SetError();
      }
    }
  }

  const BOOLEAN: byte := 0x01
  const INTEGER: byte := 0x02
  const OCTET_STRING: byte := 0x04
  const OBJECT_IDENTIFIER: byte := 0x06
  const UTF8_STRING: byte := 0x0c
  const SEQUENCE: byte := 0x30
  const SET: byte := 0x31
  const CONTEXT0: byte := 0xa0
  const CONTEXT1: byte := 0xa1

  function IntWire(v: int): Wire {
    Elem(INTEGER, Some(IntOctets(v)))
  }

  function TrueWire(): Wire {
    Elem(BOOLEAN, Some([0xff]))
  }

  function OidWire(oid: Arcs): Wire {
    if BuilderAccepts(oid) then Elem(OBJECT_IDENTIFIER, Some(OidOctets(oid))) else None
  }

  lemma ExtraOctets(length: nat, extra: nat)
    requires 0x7f < length <= MAX_CONTENT
    requires extra == if length > 0xff_ffff then 4 else if length > 0xffff then 3 else if length > 0xff then 2 else 1
    ensures |BigEndian(length)| == extra
  {
    Pow256Values();
    BigEndianSize(length, extra);
    BigEndianSize(length, extra - 1);
  }

  lemma {:induction false} WrittenSnoc(cs: seq<Call>, c: Call)
    ensures WrittenAll(cs + [c]) == Cat(WrittenAll(cs), Written(c))
  {
    if cs == [] {
      CatEmpty(Written(c));
      assert [c][1..] == [] && [] + [c] == [c];
    } else {
      WrittenSnoc(cs[1..], c);
      assert (cs + [c])[1..] == cs[1..] + [c];
      CatAssoc(Written(cs[0]), WrittenAll(cs[1..]), Written(c));
    }
  }
}
