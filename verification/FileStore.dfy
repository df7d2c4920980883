/**
 The file store's methods over one directory.  What the system may do to each call is a parameter;
 every run is shown to be one the step machine allows.
 */
module FileStore {
  import opened Common
  import opened X509
  import opened Paths
  import opened AtomicWrite

  // drawn: the random part of the temporary's name the system settles on; if even that name is taken,
  // it has given up.  writeFails: after how many bytes.
  datatype Faults = Faults(drawn: string, create: bool, writeFails: Option<nat>, close: bool, chmod: bool,
                           rename: bool, remove: bool)

  /** Nothing fails and the temporary's name is free; a failing remove does not matter then. */
  predicate Succeeds(root: string, fs: Files, kind: Kind, serial: int, f: Faults) {
    && !f.create && f.writeFails.None? && !f.close && !f.chmod && !f.rename
    && PathOf(root, Temp(kind, serial, f.drawn)) !in fs
  }

  // One call as it went: its steps, the files after it, and how it returned.
  datatype Leg = Leg(trace: seq<Action>, files: Files, call: Call)

  predicate Went(root: string, fs: Files, kind: Kind, serial: int, data: bytes, leg: Leg) {
    CallRun(root, fs, Call(kind, serial, data, Start), leg.trace, leg.files, leg.call) && Returned(leg.call.stage)
  }

  class Store {
    const root: string
    var files: Files

    constructor (root: string, files: Files)
      ensures this.root == root && this.files == files
    {
      this.root, this.files := root, files;
    }

    // The run of the current call so far.
    ghost var trace: seq<Action>
    ghost var call: Call

    /** Takes one step of the call. */
    method Step(a: Action, ghost fs: Files, ghost c: Call)
      requires Enabled(root, files, call, a) && CallRun(root, fs, c, trace, files, call)
      modifies this`trace, this`call
      ensures trace == old(trace) + [a] && call == old(call).(stage := NextStage(root, files, old(call), a))
      ensures CallRun(root, fs, c, trace, NextFiles(root, files, old(call), a), call)
    {
      CallRunExtend(root, fs, c, trace, files, call, a);
      trace := trace + [a];
      call := call.(stage := NextStage(root, files, call, a));
    }

    method WriteFileAtomic(kind: Kind, serial: int, data: bytes, f: Faults) returns (ok: bool)
      modifies this
      ensures Went(root, old(files), kind, serial, data, Leg(trace, files, call)) && (ok <==> call.stage.Done?)
      ensures var path := PathOf(root, Final(kind, serial));
              var tmp := PathOf(root, Temp(kind, serial, f.drawn));
              if ok then files == old(files)[path := data]
              else files == old(files) || (f.remove && tmp !in old(files) && files.Keys == old(files).Keys + {tmp}
                                           && files - {tmp} == old(files))
      ensures ok <==> !f.create && f.writeFails.None? && !f.close && !f.chmod && !f.rename
                      && PathOf(root, Temp(kind, serial, f.drawn)) !in old(files)
    {
      hide PathOf, CallRun;
      ghost var c := Call(kind, serial, data, Start);
      ghost var fs := files;
      call, trace := c, [];
      assert CallRun(root, fs, c, trace, files, call) by {
        RunNothing(root, fs, c);
      }
      var path := PathOf(root, Final(kind, serial));
      var tmp := PathOf(root, Temp(kind, serial, f.drawn));
      PathInjective(root, Final(kind, serial), Temp(kind, serial, f.drawn));
      if f.create || tmp in files {
        Step(CreateFails, fs, c);
        return false;
      }
      Step(Create(f.drawn), fs, c);
      files := files[tmp := []];
      ok := FillAndRename(path, tmp, data, f, fs, c);
      if ok {
        Step(Remove, fs, c);
        files := files - {tmp};
        assert files == fs[path := data];
      } else {
        CleanUp(tmp, f, fs, c);
      }
    }

    /** The deferred remove after an error. */
    method CleanUp(tmp: string, f: Faults, ghost fs: Files, ghost c: Call)
      requires tmp == TempOf(root, c, f.drawn) && call == c.(stage := Failing(f.drawn))
      requires tmp !in fs && tmp in files && files == fs[tmp := files[tmp]] && CallRun(root, fs, c, trace, files, call)
      modifies this
      ensures CallRun(root, fs, c, trace, files, call) && call.stage.Failed? && call.serial == c.serial
      ensures if f.remove then files == old(files) && files - {tmp} == fs else files == fs
    {
      hide PathOf, CallRun;
      if f.remove {
        Step(RemoveFails, fs, c);
        assert files - {tmp} == fs;
      } else {
        Step(Remove, fs, c);
        files := files - {tmp};
        assert files == fs;
      }
    }

    /** From the created temporary to the rename or the first error. */
    method FillAndRename(path: string, tmp: string, data: bytes, f: Faults, ghost fs: Files, ghost c: Call)
      returns (ok: bool)
      requires path == FinalOf(root, c) && tmp == TempOf(root, c, f.drawn) && path != tmp
      requires call == c.(stage := Writing(f.drawn, 0)) && c.data == data
      requires tmp !in fs && files == fs[tmp := []] && CallRun(root, fs, c, trace, files, call)
      modifies this
      ensures CallRun(root, fs, c, trace, files, call)
      ensures ok <==> f.writeFails.None? && !f.close && !f.chmod && !f.rename
      ensures call == c.(stage := if ok then Renamed(f.drawn) else Failing(f.drawn))
      ensures if ok then files == fs[path := data] else tmp in files && files == fs[tmp := files[tmp]]
    {
      ok := Fill(tmp, data, f, fs, c);
      if ok {
        ok := CloseAndRename(path, tmp, data, f, fs, c);
      }
    }

    method Fill(tmp: string, data: bytes, f: Faults, ghost fs: Files, ghost c: Call) returns (ok: bool)
      requires tmp == TempOf(root, c, f.drawn)
      requires call == c.(stage := Writing(f.drawn, 0)) && c.data == data
      requires tmp !in fs && files == fs[tmp := []] && CallRun(root, fs, c, trace, files, call)
      modifies this
      ensures CallRun(root, fs, c, trace, files, call) && tmp in files && files == fs[tmp := files[tmp]]
      ensures ok <==> f.writeFails.None?
      ensures call == c.(stage := if ok then Written(f.drawn) else Failing(f.drawn))
      ensures ok ==> files[tmp] == data
    {
      hide PathOf, CallRun;
      var n := if f.writeFails.Some? && f.writeFails.value < |data| then f.writeFails.value else |data|;
      Step(Write(n), fs, c);
      files := files[tmp := files[tmp] + data[0..n]];
      if f.writeFails.Some? {
        Step(WriteFails, fs, c);
        return false;
      }
      assert data[0..|data|] == data;
      Step(WriteEnds, fs, c);
      ok := true;
    }

    method CloseAndRename(path: string, tmp: string, data: bytes, f: Faults, ghost fs: Files, ghost c: Call)
      returns (ok: bool)
      requires path == FinalOf(root, c) && tmp == TempOf(root, c, f.drawn) && path != tmp
      requires call == c.(stage := Written(f.drawn)) && c.data == data
      requires tmp !in fs && files == fs[tmp := data] && CallRun(root, fs, c, trace, files, call)
      modifies this
      ensures CallRun(root, fs, c, trace, files, call)
      ensures ok <==> !f.close && !f.chmod && !f.rename
      ensures call == c.(stage := if ok then Renamed(f.drawn) else Failing(f.drawn))
      ensures files == if ok then fs[path := data] else fs[tmp := data]
    {
      hide PathOf, CallRun;
      if f.close {
        Step(CloseFails, fs, c);
        return false;
      }
      Step(Close, fs, c);
      if f.chmod {
        Step(ChmodFails, fs, c);
        return false;
      }
      Step(Chmod, fs, c);
      if f.rename {
        Step(RenameFails, fs, c);
        return false;
      }
      Step(Rename, fs, c);
      files := (files - {tmp})[path := files[tmp]];
      assert files == fs[path := data];
      ok := true;
    }

    method PutCsr(serial: int, csrDer: bytes, f: Faults) returns (ok: bool)
      modifies this
      ensures Kept(root, old(files), files, serial)
      ensures ok ==> files == old(files)[PathOf(root, Final(Csr, serial)) := csrDer]
      ensures ok <==> Succeeds(root, old(files), Csr, serial, f)
      ensures Went(root, old(files), Csr, serial, csrDer, Leg(trace, files, call)) && (ok <==> call.stage.Done?)
    {
      hide PathOf, CallRun;
      ghost var before := files;
      ok := WriteFileAtomic(Csr, serial, csrDer, f);
      WriteKeeps(root, before, files, Csr, serial, csrDer, f.drawn);
    }

    /** The metadata may fail to marshal, after the certificate is already in place. */
    method PutCertificate(serial: int, certDer: bytes, metaJson: Option<bytes>, f: Faults, g: Faults)
    returns (ok: bool, ghost cert: Leg, ghost meta: Option<Leg>)
      modifies this
      ensures Kept(root, old(files), files, serial)
      ensures var path := PathOf(root, Final(Cert, serial));
              var metaPath := PathOf(root, Final(Meta, serial));
              ok ==> metaJson.Some? && files == old(files)[path := certDer][metaPath := metaJson.value]
      ensures ok <==>
                Succeeds(root, old(files), Cert, serial, f) && metaJson.Some?
                && Succeeds(root, old(files), Meta, serial, g)
      ensures CertificateWent(root, old(files), serial, certDer, metaJson, cert, meta, files, ok)
    {
      hide PathOf, CallRun;
      PathInjective(root, Final(Cert, serial), Temp(Meta, serial, g.drawn));
      ghost var before := files;
      ok := WriteFileAtomic(Cert, serial, certDer, f);
      WriteKeeps(root, before, files, Cert, serial, certDer, f.drawn);
      cert, meta := Leg(trace, files, call), None;
      if !ok || metaJson.None? {
        ok := false;
        return;
      }
      ghost var between := files;
      ok := WriteFileAtomic(Meta, serial, metaJson.value, g);
      WriteKeeps(root, between, files, Meta, serial, metaJson.value, g.drawn);
      meta := Some(Leg(trace, files, call));
    }

    method GetCertificate(serial: int, readFails: bool, parse: CertParser) returns (cert: Option<Certificate>)
      ensures cert == if readFails then None else Stored(root, files, serial, parse)
    {
      var path := PathOf(root, Final(Cert, serial));
      if readFails || path !in files {
        return None;
      }
      cert := parse(files[path]);
    }
  }

  /** The metadata is written exactly when the certificate has been and there is some to write. */
  predicate CertificateWent(root: string, fs: Files, serial: int, certDer: bytes, metaJson: Option<bytes>,
                            cert: Leg, meta: Option<Leg>, gs: Files, ok: bool)
  {
    && Went(root, fs, Cert, serial, certDer, cert)
    && (meta.Some? <==> cert.call.stage.Done? && metaJson.Some?)
    && (meta.Some? ==> Went(root, cert.files, Meta, serial, metaJson.value, meta.value))
    && gs == (if meta.Some? then meta.value.files else cert.files)
    && (ok <==> meta.Some? && meta.value.call.stage.Done?)
  }

  lemma RunNothing(root: string, fs: Files, c: Call)
    ensures CallRun(root, fs, c, [], fs, c)
  {
  }

  function Stored(root: string, fs: Files, serial: int, parse: CertParser): Option<Certificate> {
    match Lookup(fs, PathOf(root, Final(Cert, serial)))
    case None => None
    case Some(der) => parse(der)
  }

  /** Nothing of another serial, and nothing outside the store's own names, is touched. */
  ghost predicate Kept(root: string, fs: Files, gs: Files, serial: int) {
    && (forall place: Place ::
         place.serial != serial ==> Lookup(gs, PathOf(root, place)) == Lookup(fs, PathOf(root, place)))
    && (forall p: string ::
         (forall place: Place :: place.serial == serial ==> p != PathOf(root, place)) ==>
           Lookup(gs, p) == Lookup(fs, p))
  }

  lemma WriteKeeps(root: string, fs: Files, gs: Files, kind: Kind, serial: int, data: bytes, suffix: string)
    requires var tmp := PathOf(root, Temp(kind, serial, suffix));
             || gs == fs[PathOf(root, Final(kind, serial)) := data]
             || gs == fs
             || (tmp !in fs && gs.Keys == fs.Keys + {tmp} && gs - {tmp} == fs)
    ensures Kept(root, fs, gs, serial)
  {
    hide PathOf;
    var tmp, path := PathOf(root, Temp(kind, serial, suffix)), PathOf(root, Final(kind, serial));
    forall p: string | p != tmp && p != path ensures Lookup(gs, p) == Lookup(fs, p) {
      if p in gs && p != tmp {
        assert p in gs - {tmp} ==> (gs - {tmp})[p] == gs[p];
      }
    }
    PathsApart(root);
    assert forall place: Place ::
             place.serial != serial ==> place != Temp(kind, serial, suffix) && place != Final(kind, serial);
  }

  /** What PutCertificate stored is read back, after any number of stores under other serials. */
  lemma {:induction false} PutThenGet(root: string, before: Files, after: seq<Files>, others: seq<int>,
                                      cert: Certificate, metaJson: bytes, parse: CertParser)
    requires |after| == |others| + 1 && parse(cert.raw) == Some(cert)
    requires var path, metaPath := PathOf(root, Final(Cert, cert.serial)), PathOf(root, Final(Meta, cert.serial));
             after[0] == before[path := cert.raw][metaPath := metaJson]
    requires forall i :: 0 <= i < |others| ==> others[i] != cert.serial && Kept(root, after[i], after[i + 1], others[i])
    ensures Stored(root, after[|others|], cert.serial, parse) == Some(cert)
    ensures Lookup(after[|others|], PathOf(root, Final(Meta, cert.serial))) == Some(metaJson)
    decreases |others|
  {
    hide PathOf, Kept;
    if others == [] {
      PathInjective(root, Final(Cert, cert.serial), Final(Meta, cert.serial));
    } else {
      var k := |others| - 1;
      PutThenGet(root, before, after[..k + 1], others[..k], cert, metaJson, parse);
      KeptAt(root, after[k], after[k + 1], others[k], Final(Cert, cert.serial));
      KeptAt(root, after[k], after[k + 1], others[k], Final(Meta, cert.serial));
    }
  }

  lemma KeptAt(root: string, fs: Files, gs: Files, serial: int, place: Place)
    requires Kept(root, fs, gs, serial) && place.serial != serial
    ensures Lookup(gs, PathOf(root, place)) == Lookup(fs, PathOf(root, place))
  {
    hide PathOf;
  }
}
