/**
 One call of writeFileAtomic, step by step over the files it shares with every other call:
 create a temporary, write, close, chmod, rename over the final name, and the deferred remove.
 */
module AtomicWrite {
  import opened Common
  import opened Paths

  type Files = map<string, bytes>

  function Lookup(fs: Files, path: string): Option<bytes> {
    if path in fs then Some(fs[path]) else None
  }

  datatype Stage =
    | Start
    | Writing(suffix: string, written: nat)
    | Written(suffix: string)
    | Closed(suffix: string)
    | Chmodded(suffix: string)
    | Renamed(suffix: string)
    | Failing(suffix: string)
    | Done
    | Failed(left: Option<string>)  // returned an error; the temporary that stays behind, if any
    | Lost(left: Option<string>)    // the process died

  datatype Call = Call(kind: Kind, serial: int, data: bytes, stage: Stage)

  // Creating the directory and the temporary count as one step, as do an error of Write and the
  // Close that follows it.
  datatype Action =
    | Create(suffix: string) | CreateFails
    | Write(count: nat) | WriteEnds | WriteFails
    | Close | CloseFails
    | Chmod | ChmodFails
    | Rename | RenameFails
    | Remove | RemoveFails

  function FinalOf(root: string, c: Call): string {
    PathOf(root, Final(c.kind, c.serial))
  }

  function TempOf(root: string, c: Call, suffix: string): string {
    PathOf(root, Temp(c.kind, c.serial, suffix))
  }

  /** A temporary is created only where no file is; the system may cut a write anywhere. */
  predicate Enabled(root: string, fs: Files, c: Call, a: Action) {
    match a
    case Create(suffix) => c.stage.Start? && TempOf(root, c, suffix) !in fs
    case CreateFails => c.stage.Start?
    case Write(count) => c.stage.Writing? && c.stage.written + count <= |c.data|
    case WriteEnds => c.stage.Writing? && c.stage.written == |c.data|
    case WriteFails => c.stage.Writing?
    case Close => c.stage.Written?
    case CloseFails => c.stage.Written?
    case Chmod => c.stage.Closed?
    case ChmodFails => c.stage.Closed?
    case Rename => c.stage.Chmodded? && TempOf(root, c, c.stage.suffix) in fs
    case RenameFails => c.stage.Chmodded?
    case Remove => c.stage.Renamed? || c.stage.Failing?
    case RemoveFails => c.stage.Renamed? || c.stage.Failing?
  }

  function NextStage(root: string, fs: Files, c: Call, a: Action): Stage
    requires Enabled(root, fs, c, a)
  {
    match a
    case Create(suffix) => Writing(suffix, 0)
    case CreateFails => Failed(None)
    case Write(count) => Writing(c.stage.suffix, c.stage.written + count)
    case WriteEnds => Written(c.stage.suffix)
    case Close => Closed(c.stage.suffix)
    case Chmod => Chmodded(c.stage.suffix)
    case Rename => Renamed(c.stage.suffix)
    case Remove => if c.stage.Renamed? then Done else Failed(None)
    case RemoveFails => if c.stage.Renamed? then Done else Failed(Some(c.stage.suffix))
    case _ => Failing(c.stage.suffix)
  }

  /** Bytes go to the end of the temporary; the rename replaces whatever the final name held. */
  function NextFiles(root: string, fs: Files, c: Call, a: Action): Files
    requires Enabled(root, fs, c, a)
  {
    match a
    case Create(suffix) => fs[TempOf(root, c, suffix) := []]
    case Write(count) =>
      var tmp, w := TempOf(root, c, c.stage.suffix), c.stage.written;
      if tmp in fs then fs[tmp := fs[tmp] + c.data[w..w + count]] else fs
    case Rename =>
      var tmp := TempOf(root, c, c.stage.suffix);
      (fs - {tmp})[FinalOf(root, c) := fs[tmp]]
    case Remove => fs - {TempOf(root, c, c.stage.suffix)}
    case _ => fs
  }

  predicate Returned(s: Stage) {
    s.Done? || s.Failed?
  }

  // -- What a call owns -------------------------------------------------------------

  /** The temporary this call has created and may still touch, or has left behind. */
  function Mention(c: Call): Option<Place> {
    match c.stage
    case Start => None
    case Done => None
    case Failed(left) => if left.Some? then Some(Temp(c.kind, c.serial, left.value)) else None
    case Lost(left) => if left.Some? then Some(Temp(c.kind, c.serial, left.value)) else None
    case _ => Some(Temp(c.kind, c.serial, c.stage.suffix))
  }

  /** What the temporary holds at each stage. */
  predicate Content(root: string, fs: Files, c: Call) {
    Mention(c).Some? ==>
      var there := Lookup(fs, PathOf(root, Mention(c).value));
      match c.stage
      case Writing(_, w) => w <= |c.data| && there == Some(c.data[..w])
      case Written(_) => there == Some(c.data)
      case Closed(_) => there == Some(c.data)
      case Chmodded(_) => there == Some(c.data)
      case Renamed(_) => there == None
      case _ => there.Some?
  }

  predicate Landed(s: Stage) {
    s.Renamed? || s.Done?
  }

  /** One step touches the call's own temporary, and its final name only by renaming a whole file. */
  lemma StepEffect(root: string, fs: Files, c: Call, a: Action)
    requires Enabled(root, fs, c, a) && Content(root, fs, c)
    ensures var d := c.(stage := NextStage(root, fs, c, a));
            var gs := NextFiles(root, fs, c, a);
            && Content(root, gs, d)
            && (Mention(d) == Mention(c) || Mention(d) == None
               || (a.Create? && Mention(d) == Some(Temp(c.kind, c.serial, a.suffix))))
            && (Landed(d.stage) <==> a.Rename? || Landed(c.stage))
            && (a.Rename? ==> Lookup(gs, FinalOf(root, c)) == Some(c.data))
            && (forall p :: Lookup(gs, p) == Lookup(fs, p) || (a.Rename? && p == FinalOf(root, c))
                            || (Mention(d).Some? && p == PathOf(root, Mention(d).value))
                            || (Mention(c).Some? && p == PathOf(root, Mention(c).value)))
  {
    hide PathOf;
    if a.Write? {
      var w := c.stage.written;
      assert c.data[..w] + c.data[w..w + a.count] == c.data[..w + a.count];
    } else if a.WriteEnds? {
      assert c.data[..|c.data|] == c.data;
    } else if a.Rename? {
      PathInjective(root, Final(c.kind, c.serial), Temp(c.kind, c.serial, c.stage.suffix));
    }
  }

  /** When the step is the last to touch the temporary, the temporary is gone. */
  lemma StepCleansUp(root: string, fs: Files, c: Call, a: Action)
    requires Enabled(root, fs, c, a) && Content(root, fs, c) && Mention(c).Some?
    requires Mention(c.(stage := NextStage(root, fs, c, a))) == None
    ensures Lookup(NextFiles(root, fs, c, a), PathOf(root, Mention(c).value)) == None
  {
    hide PathOf;
  }

  /** Calls for different serials never touch a common file, not even by the deferred remove. */
  lemma OtherSerialUntouched(root: string, fs: Files, c: Call, a: Action, place: Place)
    requires Enabled(root, fs, c, a) && place.serial != c.serial
    ensures Lookup(NextFiles(root, fs, c, a), PathOf(root, place)) == Lookup(fs, PathOf(root, place))
  {
    hide PathOf;
    PathsApart(root);
    if a.Create? {
      assert place != Temp(c.kind, c.serial, a.suffix);
    } else if !a.CreateFails? {
      assert place != Temp(c.kind, c.serial, c.stage.suffix) && place != Final(c.kind, c.serial);
    }
  }

  // -- One call by itself -----------------------------------------------------------------

  predicate CallRun(root: string, fs: Files, c: Call, trace: seq<Action>, gs: Files, d: Call)
    decreases |trace|
  {
    if trace == [] then fs == gs && c == d
    else
      && Enabled(root, fs, c, trace[0])
      && CallRun(root, NextFiles(root, fs, c, trace[0]), c.(stage := NextStage(root, fs, c, trace[0])),
                 trace[1..], gs, d)
  }

  lemma {:induction false} CallRunExtend(root: string, fs: Files, c: Call, trace: seq<Action>, gs: Files,
                                      d: Call, a: Action)
    requires CallRun(root, fs, c, trace, gs, d) && Enabled(root, gs, d, a)
    ensures CallRun(root, fs, c, trace + [a], NextFiles(root, gs, d, a), d.(stage := NextStage(root, gs, d, a)))
    decreases |trace|
  {
    hide Enabled, NextFiles, NextStage;
    if trace == [] {
      assert [] + [a] == [a] && [a][1..] == [];
      assert CallRun(root, NextFiles(root, gs, d, a), d.(stage := NextStage(root, gs, d, a)), [],
                     NextFiles(root, gs, d, a), d.(stage := NextStage(root, gs, d, a)));
    } else {
      var b := trace[0];
      CallRunExtend(root, NextFiles(root, fs, c, b), c.(stage := NextStage(root, fs, c, b)), trace[1..], gs, d, a);
      assert (trace + [a])[0] == b && (trace + [a])[1..] == trace[1..] + [a];
    }
  }

  /** Once something has gone wrong the call does not succeed. */
  lemma {:induction false} FailureStays(root: string, fs: Files, c: Call, trace: seq<Action>, gs: Files, d: Call)
    requires CallRun(root, fs, c, trace, gs, d) && (c.stage.Failing? || c.stage.Failed? || c.stage.Lost?)
    ensures !d.stage.Done?
    decreases |trace|
  {
    hide PathOf;
    if trace != [] {
      var a := trace[0];
      FailureStays(root, NextFiles(root, fs, c, a), c.(stage := NextStage(root, fs, c, a)), trace[1..], gs, d);
    }
  }

  /** What is still to be done of a call whose writes are over, but for the deferred remove. */
  function Remaining(s: Stage): seq<Action> {
    match s
    case Written(_) => [Close, Chmod, Rename]
    case Closed(_) => [Chmod, Rename]
    case Chmodded(_) => [Rename]
    case _ => []
  }

  lemma {:induction false} AfterWrites(root: string, fs: Files, c: Call, trace: seq<Action>, gs: Files, d: Call)
    requires CallRun(root, fs, c, trace, gs, d) && d.stage.Done?
    requires c.stage.Written? || c.stage.Closed? || c.stage.Chmodded? || c.stage.Renamed?
    ensures trace == Remaining(c.stage) + [Remove] || trace == Remaining(c.stage) + [RemoveFails]
    decreases |trace|
  {
    hide PathOf, NextFiles, FinalOf, TempOf;
    var a := trace[0];
    var c', fs' := c.(stage := NextStage(root, fs, c, a)), NextFiles(root, fs, c, a);
    assert trace == [a] + trace[1..];
    if c'.stage.Failing? {
      FailureStays(root, fs', c', trace[1..], gs, d);
    } else if c'.stage.Done? {
      NothingAfter(root, fs', c', trace[1..], gs, d);
    } else {
      AfterWrites(root, fs', c', trace[1..], gs, d);
      assert Remaining(c.stage) == [a] + Remaining(c'.stage);
    }
  }

  lemma NothingAfter(root: string, fs: Files, c: Call, trace: seq<Action>, gs: Files, d: Call)
    requires CallRun(root, fs, c, trace, gs, d) && c.stage.Done?
    ensures trace == []
  {
  }

  lemma {:induction false} WhileWriting(root: string, fs: Files, c: Call, trace: seq<Action>, gs: Files, d: Call)
    returns (n: nat)
    requires CallRun(root, fs, c, trace, gs, d) && d.stage.Done? && c.stage.Writing?
    ensures |trace| == n + 5 && forall i :: 0 <= i < n ==> trace[i].Write?
    ensures trace[n..] == [WriteEnds, Close, Chmod, Rename, Remove]
            || trace[n..] == [WriteEnds, Close, Chmod, Rename, RemoveFails]
    decreases |trace|
  {
    hide PathOf, NextFiles, FinalOf, TempOf;
    var a := trace[0];
    var c', fs' := c.(stage := NextStage(root, fs, c, a)), NextFiles(root, fs, c, a);
    assert trace == [a] + trace[1..];
    if a.Write? {
      var m := WhileWriting(root, fs', c', trace[1..], gs, d);
      n := m + 1;
      assert trace[n..] == trace[1..][m..];
    } else if a.WriteFails? {
      FailureStays(root, fs', c', trace[1..], gs, d);
    } else {
      n := 0;
      AfterWrites(root, fs', c', trace[1..], gs, d);
      assert trace[0..] == trace;
    }
  }

  /**
   A call that succeeds has made its temporary, written to it, closed it, set its mode and only then renamed it, and
   has called the deferred remove last; and nothing but the writes is done twice.
   */
  lemma SuccessfulTrace(root: string, fs: Files, c: Call, trace: seq<Action>, gs: Files, d: Call) returns (n: nat)
    requires CallRun(root, fs, c, trace, gs, d) && c.stage.Start? && d.stage.Done?
    ensures |trace| == n + 6 && trace[0].Create? && forall i :: 1 <= i <= n ==> trace[i].Write?
    ensures trace[n + 1..] == [WriteEnds, Close, Chmod, Rename, Remove]
            || trace[n + 1..] == [WriteEnds, Close, Chmod, Rename, RemoveFails]
  {
    hide PathOf, NextFiles, FinalOf, TempOf;
    var a := trace[0];
    var c', fs' := c.(stage := NextStage(root, fs, c, a)), NextFiles(root, fs, c, a);
    if a.CreateFails? {
      FailureStays(root, fs', c', trace[1..], gs, d);
    } else {
      n := WhileWriting(root, fs', c', trace[1..], gs, d);
      assert trace[n + 1..] == trace[1..][n..];
      assert forall i :: 1 <= i <= n ==> trace[i] == trace[1..][i - 1];
    }
  }
}
