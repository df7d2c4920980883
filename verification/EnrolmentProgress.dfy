/** No request need ever hang: from every reachable state each can be brought to an answer by steps of its own. */
module EnrolmentProgress {
  import opened Common
  import opened Paths
  import opened AtomicWrite
  import opened StoreMachine
  import opened Enrolment
  import BodyEncoding
  import EnrolmentProperties
  import Identity

  // -- A name for a temporary is always free ---------------------------------------------

  lemma {:induction false} LongestName(names: set<string>) returns (n: nat)
    ensures forall p :: p in names ==> |p| <= n
    decreases |names|
  {
    n := 0;
    if names != {} {
      var p :| p in names;
      var m := LongestName(names - {p});
      n := if |p| > m then |p| else m;
      assert forall q :: q in names ==> q == p || q in names - {p};
    }
  }

  lemma FreeSuffix(root: string, fs: Files, c: Call) returns (suffix: string)
    ensures TempOf(root, c, suffix) !in fs
  {
    var n := LongestName(fs.Keys);
    suffix := seq(n + 1, i => '0');
    TempBesideFinal(root, c.kind, c.serial, suffix);
    assert |TempOf(root, c, suffix)| > n;
    hide PathOf;
    assert TempOf(root, c, suffix) in fs ==> TempOf(root, c, suffix) in fs.Keys;
  }

  // -- One call -------------------------------------------------------------------------------

  /** The next step of a call when nothing goes wrong. */
  function Onward(c: Call, suffix: string): Action {
    match c.stage
    case Writing(_, w) => if w < |c.data| then Write(|c.data| - w) else WriteEnds
    case Written(_) => Close
    case Closed(_) => Chmod
    case Chmodded(_) => Rename
    case Renamed(_) => Remove
    case Failing(_) => Remove
    case _ => Create(suffix)
  }

  function StageRank(c: Call): nat {
    match c.stage
    case Start => 9
    case Writing(_, w) => if w < |c.data| then 8 else 7
    case Written(_) => 6
    case Closed(_) => 5
    case Chmodded(_) => 4
    case Renamed(_) => 3
    case Failing(_) => 2
    case _ => 1
  }

  /** Nothing has gone wrong with the call so far. */
  predicate Sound(s: Stage) {
    !s.Failing? && !s.Failed? && !s.Lost?
  }

  lemma CallOnward(root: string, fs: Files, c: Call, suffix: string)
    requires Content(root, fs, c) && !Returned(c.stage) && !c.stage.Lost?
    requires TempOf(root, c, suffix) !in fs
    ensures Enabled(root, fs, c, Onward(c, suffix))
    ensures var d := c.(stage := NextStage(root, fs, c, Onward(c, suffix)));
            StageRank(d) < StageRank(c) && !d.stage.Lost? && (Sound(c.stage) ==> Sound(d.stage))
  {
    hide PathOf;
  }

  // -- One request ----------------------------------------------------------------------------

  function StoringRank(kind: Kind): nat {
    match kind case Csr => 60 case Cert => 40 case Meta => 20
  }

  /** How much is still to be done. */
  function Rank(s: State, r: nat): nat
    requires r in s.reqs
  {
    match s.reqs[r].phase
    case Arrived => 100
    case Authenticated => 99
    case Decoded(_) => 98
    case Cleared(_) => 97
    case Storing(kind) =>
      StoringRank(kind) + (match CallAt(s, r, kind) case Some(c) => StageRank(c) case None => 0)
    case Stored => 10
    case _ => 0
  }

  predicate Answered(p: Phase) {
    p.Responded? || p.Refused?
  }

  /** A certificate has been issued, no write has gone wrong, and the rest can be written. */
  predicate Hopeful(env: Env, s: State, r: nat) {
    && r in s.reqs && r in s.jobs
    && env.metaJson(s.jobs[r].meta).Some? && Reply(s.jobs[r].cert).Some?
    && match s.reqs[r].phase
       case Storing(kind) => CallAt(s, r, kind).Some? && Sound(CallAt(s, r, kind).value.stage)
       case Stored => true
       case Responded(_) => true
       case _ => false
  }

  /** One step of the request that brings it nearer to its answer. */
  ghost predicate Nearer(env: Env, s: State, e: Step, r: nat) {
    && CanStep(env, s, e) && NewSerial(s, e) && r in s.reqs
    && var t := Next(env, s, e);
       && r in t.reqs && !t.reqs[r].phase.Dropped? && Rank(t, r) < Rank(s, r)
       && (Hopeful(env, s, r) ==> Hopeful(env, t, r))
  }

  lemma EarlyNearer(env: Env, s: State, r: nat) returns (e: Step)
    requires r in s.reqs && Early(s.reqs[r].phase)
    ensures e in [Authenticate(r), Decode(r), Match(r), IssueFails(r, false)] && Nearer(env, s, e, r)
  {
    hide BodyEncoding.BodyRequest, Identity.Matches, Reply;
    e := match s.reqs[r].phase
         case Arrived => Authenticate(r)
         case Authenticated => Decode(r)
         case Decoded(_) => Match(r)
         case _ => IssueFails(r, false);
  }

  lemma FileNearer(env: Env, s: State, r: nat, kind: Kind, suffix: string)
    requires r in s.reqs && s.reqs[r].phase == Storing(kind) && CallAt(s, r, kind).Some?
    requires var c := CallAt(s, r, kind).value;
             && Content(s.store.root, s.store.fs, c) && !Returned(c.stage) && !c.stage.Lost?
             && TempOf(s.store.root, c, suffix) !in s.store.fs
    ensures Nearer(env, s, FileStep(r, Onward(CallAt(s, r, kind).value, suffix)), r)
  {
    var c := CallAt(s, r, kind).value;
    CallOnward(s.store.root, s.store.fs, c, suffix);
    hide Onward, Enabled, NextFiles, NextStage, StageRank, Content, Returned, Sound, Reply, PathOf;
  }

  lemma ReturnNearer(env: Env, s: State, r: nat, kind: Kind)
    requires r in s.reqs && s.reqs[r].phase == Storing(kind) && CallAt(s, r, kind).Some? && r in s.jobs
    requires Returned(CallAt(s, r, kind).value.stage)
    ensures Nearer(env, s, WriteReturns(r), r)
  {
    hide Reply;
  }

  lemma RespondNearer(env: Env, s: State, r: nat)
    requires r in s.reqs && s.reqs[r].phase.Stored? && r in s.jobs
    ensures Nearer(env, s, Respond(r), r)
  {
    hide Reply, Body;
  }

  lemma SomeNearer(env: Env, init: Files, s: State, r: nat) returns (e: Step)
    requires EInv(env, init, s) && r in s.reqs
    requires !Answered(s.reqs[r].phase) && !s.reqs[r].phase.Dropped?
    ensures Nearer(env, s, e, r) && !e.Arrive? && !e.Die? && e.r == r
  {
    hide Nearer, Inv, JobOk, EarlyOk, JobsDistinct, CallsBelong;
    assert SliceOk(env, SliceOf(s, r));
    var phase := s.reqs[r].phase;
    if Early(phase) {
      e := EarlyNearer(env, s, r);
    } else if phase.Stored? {
      e := Respond(r);
      RespondNearer(env, s, r);
    } else {
      var c := CallAt(s, r, phase.kind).value;
      if Returned(c.stage) {
        e := WriteReturns(r);
        ReturnNearer(env, s, r, phase.kind);
      } else {
        var suffix := FreeSuffix(s.store.root, s.store.fs, c);
        e := FileStep(r, Onward(c, suffix));
        ContentOf(init, s.store, Id(r, phase.kind));
        FileNearer(env, s, r, phase.kind, suffix);
      }
    }
  }

  lemma ContentOf(init: Files, s: Store, id: CallId)
    requires Inv(init, s) && id in s.calls
    ensures Content(s.root, s.fs, s.calls[id])
  {
    hide Owned, Exclusive, Finals, NoOrphans, Latest, Content;
  }

  predicate OwnSteps(es: seq<Step>, r: nat) {
    forall i :: 0 <= i < |es| ==> !es[i].Arrive? && !es[i].Die? && es[i].r == r
  }

  /** By steps of its own, a live request comes to an answer, and to success if nothing stands in the way. */
  lemma {:induction false} Finish(env: Env, init: Files, s: State, r: nat) returns (es: seq<Step>, t: State)
    requires EInv(env, init, s) && r in s.reqs && !s.reqs[r].phase.Dropped?
    ensures Run(env, s, es, t) && OwnSteps(es, r)
    ensures r in t.reqs && Answered(t.reqs[r].phase)
    ensures Hopeful(env, s, r) ==> t.reqs[r].phase.Responded?
    decreases Rank(s, r)
  {
    hide EInv, CanStep, NewSerial, Next, Hopeful, Rank;
    if Answered(s.reqs[r].phase) {
      es, t := [], s;
      HopefulAnswered(env, s, r);
    } else {
      var e := SomeNearer(env, init, s, r);
      Enrolment.StepKeeps(env, init, s, e);
      var rest;
      rest, t := Finish(env, init, Next(env, s, e), r);
      es := [e] + rest;
    }
  }

  lemma HopefulAnswered(env: Env, s: State, r: nat)
    requires r in s.reqs && Answered(s.reqs[r].phase)
    ensures Hopeful(env, s, r) ==> s.reqs[r].phase.Responded?
  {
  }

  /** From every reachable state, whatever has failed or died before. */
  lemma EveryRequestCanFinish(env: Env, s0: State, es: seq<Step>, s: State, r: nat) returns (more: seq<Step>, t: State)
    requires AtStart(s0) && Run(env, s0, es, s) && r in s.reqs && !s.reqs[r].phase.Dropped?
    ensures Run(env, s, more, t) && OwnSteps(more, r)
    ensures r in t.reqs && Answered(t.reqs[r].phase)
    ensures Hopeful(env, s, r) ==> t.reqs[r].phase.Responded?
  {
    hide Run, EInv, AtStart, Hopeful;
    EnrolmentProperties.BegunInv(env, s0);
    EnrolmentProperties.RunKeeps(env, s0.store.fs, s0, es, s);
    more, t := Finish(env, s0.store.fs, s, r);
  }
}
