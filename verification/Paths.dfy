/** The store's file names: where each serial's three files go, and the names of their temporaries. */
module Paths {
  import opened Serial

  datatype Kind = Csr | Cert | Meta

  // A temporary is in its final file's directory and starts with that file's name.
  datatype Place = Final(kind: Kind, serial: int) | Temp(kind: Kind, serial: int, suffix: string)

  function Dir(kind: Kind): string {
    if kind == Csr then "/csrs/" else "/certs/"
  }

  function Ext(kind: Kind): string {
    if kind == Meta then "json" else "der"
  }

  function Ending(p: Place): string {
    Ext(p.kind) + if p.Final? then "" else ".tmp-" + p.suffix
  }

  function PathOf(root: string, p: Place): string {
    root + (Dir(p.kind) + (SerialHex(p.serial) + "." + Ending(p)))
  }

  /** Where each file goes. */
  lemma FinalNames(root: string, serial: int)
    ensures PathOf(root, Final(Csr, serial)) == root + "/csrs/" + SerialHex(serial) + ".der"
    ensures PathOf(root, Final(Cert, serial)) == root + "/certs/" + SerialHex(serial) + ".der"
    ensures PathOf(root, Final(Meta, serial)) == root + "/certs/" + SerialHex(serial) + ".json"
  {
    hide SerialHex;
    var name := SerialHex(serial);
    assert "der" + "" == "der" && "json" + "" == "json";
    assert root + ("/csrs/" + (name + "." + "der")) == root + "/csrs/" + name + ".der";
    assert root + ("/certs/" + (name + "." + "der")) == root + "/certs/" + name + ".der";
    assert root + ("/certs/" + (name + "." + "json")) == root + "/certs/" + name + ".json";
  }

  /** A temporary sits beside its final file, whose whole name its own begins with. */
  lemma TempBesideFinal(root: string, kind: Kind, serial: int, suffix: string)
    ensures PathOf(root, Temp(kind, serial, suffix)) == PathOf(root, Final(kind, serial)) + ".tmp-" + suffix
  {
    hide SerialHex, Dir, Ext;
    var name, ext, tail := SerialHex(serial), Ext(kind), ".tmp-" + suffix;
    assert ext + "" == ext;
    assert root + (Dir(kind) + (name + "." + (ext + tail)))
           == root + (Dir(kind) + (name + "." + ext)) + ".tmp-" + suffix;
  }

  predicate Dotless(s: string) {
    forall i :: 0 <= i < |s| ==> s[i] != '.'
  }

  lemma FirstDot(a: string, s: string)
    requires Dotless(a)
    ensures var x := a + "." + s; x[|a|] == '.' && x[..|a|] == a && x[|a| + 1..] == s
    ensures forall i :: 0 <= i < |a| ==> (a + "." + s)[i] != '.'
  {
  }

  lemma SplitAtDot(a: string, s: string, b: string, t: string)
    requires Dotless(a) && Dotless(b) && a + "." + s == b + "." + t
    ensures a == b && s == t
  {
    FirstDot(a, s);
    FirstDot(b, t);
    assert |a| <= |b| && |b| <= |a|;
  }

  lemma HexDotless(serial: int)
    ensures Dotless(SerialHex(serial))
  {
    var n := if serial < 0 then -serial else serial;
    var s := Pad(Hex(n), if serial < 0 then WIDTH - 1 else WIDTH);
    assert AllHex(s);
    hide Hex, Pad;
  }

  lemma SamePrefix(p: string, s: string, t: string)
    requires p + s == p + t
    ensures s == t
  {
    assert (p + s)[|p|..] == s && (p + t)[|p|..] == t;
  }

  lemma EndingsApart(a: Place, b: Place)
    requires Ending(a) == Ending(b) && Dir(a.kind) == Dir(b.kind)
    ensures a.kind == b.kind && a.Final? == b.Final? && (a.Temp? ==> a.suffix == b.suffix)
  {
    var x, y := Ending(a), Ending(b);
    assert x[0] == Ext(a.kind)[0] && y[0] == Ext(b.kind)[0];
    if a.Temp? && b.Temp? {
      SamePrefix(Ext(a.kind), ".tmp-" + a.suffix, ".tmp-" + b.suffix);
      SamePrefix(".tmp-", a.suffix, b.suffix);
    }
  }

  lemma DirsApart(a: Kind, b: Kind, s: string, t: string)
    requires Dir(a) + s == Dir(b) + t
    ensures Dir(a) == Dir(b) && s == t
  {
    assert (Dir(a) + s)[2] == Dir(a)[2] && (Dir(b) + t)[2] == Dir(b)[2];
    SamePrefix(Dir(a), s, t);
  }

  /** Different files have different names: finals, temporaries, and one against the other. */
  lemma PathInjective(root: string, a: Place, b: Place)
    ensures PathOf(root, a) == PathOf(root, b) <==> a == b
  {
    if PathOf(root, a) == PathOf(root, b) {
      hide SerialHex, Ending, Dir, Dotless;
      var s, t := SerialHex(a.serial) + "." + Ending(a), SerialHex(b.serial) + "." + Ending(b);
      SamePrefix(root, Dir(a.kind) + s, Dir(b.kind) + t);
      DirsApart(a.kind, b.kind, s, t);
      HexDotless(a.serial);
      HexDotless(b.serial);
      SplitAtDot(SerialHex(a.serial), Ending(a), SerialHex(b.serial), Ending(b));
      EndingsApart(a, b);
      SerialHexInjective(a.serial, b.serial);
    }
  }

  /** The same, for every pair. */
  lemma PathsApart(root: string)
    ensures forall a, b :: PathOf(root, a) == PathOf(root, b) ==> a == b
  {
    forall a, b | PathOf(root, a) == PathOf(root, b) ensures a == b {
      PathInjective(root, a, b);
    }
  }
}
