/** What holds over whole runs of the enrolment machine. */
module EnrolmentProperties {
  import opened Common
  import opened X509
  import opened Paths
  import opened AtomicWrite
  import opened StoreMachine
  import opened Enrolment
  import BodyEncoding
  import Base64
  import Identity
  import Pkcs7
  import Pkcs7Limits

  // -- Runs ---------------------------------------------------------------------------

  lemma BegunInv(env: Env, s: State)
    requires AtStart(s)
    ensures EInv(env, s.store.fs, s)
  {
    StoreMachine.InitialInv(s.store);
    hide Inv;
  }

  lemma {:induction false} RunKeeps(env: Env, init: Files, s: State, es: seq<Step>, t: State)
    requires EInv(env, init, s) && Run(env, s, es, t)
    ensures EInv(env, init, t)
    decreases |es|
  {
    hide EInv, CanStep, NewSerial, Next;
    if es != [] {
      Enrolment.StepKeeps(env, init, s, es[0]);
      RunKeeps(env, init, Next(env, s, es[0]), es[1..], t);
    }
  }

  lemma {:induction false} StepsConcat(s: Store, es: seq<Event>, t: Store, fs: seq<Event>, u: Store)
    requires Steps(s, es, t) && Steps(t, fs, u)
    ensures Steps(s, es + fs, u)
    decreases |es|
  {
    hide CanHappen, Happen, Fresh;
    if es == [] {
      assert es + fs == fs;
    } else {
      StepsConcat(Happen(s, es[0]), es[1..], t, fs, u);
      assert (es + fs)[0] == es[0] && (es + fs)[1..] == es[1..] + fs;
    }
  }

  /** Seen from the store, requests are calls of writeFileAtomic and nothing else. */
  lemma {:induction false} RunsAreStoreRuns(env: Env, init: Files, s: State, es: seq<Step>, t: State)
    returns (fs: seq<Event>)
    requires EInv(env, init, s) && Run(env, s, es, t)
    ensures Steps(s.store, fs, t.store)
    decreases |es|
  {
    hide EInv, CanStep, NewSerial, Next, StoreEvents, CanHappen, Happen, Fresh;
    if es == [] {
      fs := [];
    } else {
      Enrolment.StepKeeps(env, init, s, es[0]);
      var u := Next(env, s, es[0]);
      var rest := RunsAreStoreRuns(env, init, u, es[1..], t);
      StepsConcat(s.store, StoreEvents(env, s, es[0]), u.store, rest, t.store);
      fs := StoreEvents(env, s, es[0]) + rest;
    }
  }

  lemma {:induction false} RunConcat(env: Env, s: State, es: seq<Step>, t: State, fs: seq<Step>, u: State)
    requires Run(env, s, es, t) && Run(env, t, fs, u)
    ensures Run(env, s, es + fs, u)
    decreases |es|
  {
    hide CanStep, NewSerial, Next;
    if es == [] {
      assert es + fs == fs;
    } else {
      RunConcat(env, Next(env, s, es[0]), es[1..], t, fs, u);
      assert (es + fs)[0] == es[0] && (es + fs)[1..] == es[1..] + fs;
    }
  }

  // -- After the response -----------------------------------------------------------------

  predicate Answered(s: State, r: nat) {
    r in s.reqs && s.reqs[r].phase.Responded? && r in s.jobs
  }

  lemma AnswerStaysStep(env: Env, s: State, e: Step, r: nat)
    requires Answered(s, r) && CanStep(env, s, e)
    ensures var t := Next(env, s, e); Answered(t, r) && t.reqs[r] == s.reqs[r] && t.jobs[r] == s.jobs[r]
  {
    if e.Die? {
    } else if e.r != r {
      OthersUntouched(env, s, e, r);
      hide Next, CanStep;
      assert JobAt(Next(env, s, e), r) == JobAt(s, r);
    }
  }

  lemma {:induction false} AnswerStays(env: Env, s: State, es: seq<Step>, t: State, r: nat)
    requires Answered(s, r) && Run(env, s, es, t)
    ensures Answered(t, r) && t.reqs[r] == s.reqs[r] && t.jobs[r] == s.jobs[r]
    decreases |es|
  {
    hide CanStep, NewSerial, Next, Answered;
    if es != [] {
      AnswerStaysStep(env, s, es[0], r);
      AnswerStays(env, Next(env, s, es[0]), es[1..], t, r);
    }
  }

  /** The three files of a job, in full. */
  predicate FilesHold(env: Env, s: State, job: Job) {
    && Lookup(s.store.fs, PathOf(s.store.root, Final(Csr, job.cert.serial))) == Some(job.csr.raw)
    && Lookup(s.store.fs, PathOf(s.store.root, Final(Cert, job.cert.serial))) == Some(job.cert.raw)
    && env.metaJson(job.meta).Some?
    && Lookup(s.store.fs, PathOf(s.store.root, Final(Meta, job.cert.serial))) == env.metaJson(job.meta)
  }

  lemma AnsweredSlice(env: Env, s: State, r: nat)
    requires SlicesOk(env, s) && r in s.reqs && s.reqs[r].phase.Responded?
    ensures r in s.jobs && JobOk(env, s.reqs[r].incoming, s.jobs[r])
    ensures Reply(s.jobs[r].cert).Some? && s.reqs[r].phase.body == Body(Reply(s.jobs[r].cert).value)
    ensures forall kind :: DoneCall(env, s, r, kind)
  {
    hide JobOk, Reply, Body;
    assert SliceOk(env, SliceOf(s, r));
    forall kind ensures DoneCall(env, s, r, kind) {
      assert kind == Csr || kind == Cert || kind == Meta;
    }
  }

  function DataOf(env: Env, job: Job, kind: Kind): Option<bytes> {
    match kind
    case Csr => Some(job.csr.raw)
    case Cert => Some(job.cert.raw)
    case Meta => env.metaJson(job.meta)
  }

  predicate DoneCall(env: Env, s: State, r: nat, kind: Kind) {
    r in s.jobs && var c := CallAt(s, r, kind); IsDone(c) && WritesTo(c, kind, s.jobs[r], DataOf(env, s.jobs[r], kind))
  }

  lemma DoneFile(env: Env, init: Files, s: State, r: nat, kind: Kind)
    requires Inv(init, s.store) && Distinct(s.store) && DoneCall(env, s, r, kind)
    ensures Lookup(s.store.fs, PathOf(s.store.root, Final(kind, s.jobs[r].cert.serial))) == DataOf(env, s.jobs[r], kind)
    ensures DataOf(env, s.jobs[r], kind).Some?
  {
    hide Inv, Distinct, PathOf, Lookup;
    FinishedStays(init, s.store, Id(r, kind));
  }

  lemma AnsweredFiles(env: Env, init: Files, s: State, r: nat)
    requires EInv(env, init, s) && r in s.reqs && s.reqs[r].phase.Responded?
    ensures r in s.jobs && FilesHold(env, s, s.jobs[r])
  {
    hide Inv, Distinct, PathOf, Lookup, DoneCall, JobsDistinct, CallsBelong, SlicesOk, JobOk, Reply, Body, FilesHold;
    AnsweredSlice(env, s, r);
    CallsDistinct(env, s);
    AllDone(env, init, s, r);
  }

  lemma AllDone(env: Env, init: Files, s: State, r: nat)
    requires Inv(init, s.store) && Distinct(s.store) && r in s.jobs && forall kind :: DoneCall(env, s, r, kind)
    ensures FilesHold(env, s, s.jobs[r])
  {
    hide Inv, Distinct, PathOf, Lookup, DoneCall;
    DoneFile(env, init, s, r, Csr);
    DoneFile(env, init, s, r, Cert);
    DoneFile(env, init, s, r, Meta);
  }

  /**
   Once a request has its 200 response, the store holds exactly its request, certificate and metadata
   at the serial's three names, in every state from then on.
   */
  lemma StoredForGood(env: Env, s0: State, es: seq<Step>, s: State, fs: seq<Step>, t: State, r: nat)
    requires AtStart(s0) && Run(env, s0, es, s) && Run(env, s, fs, t)
    requires r in s.reqs && s.reqs[r].phase.Responded?
    ensures r in s.jobs && FilesHold(env, s, s.jobs[r]) && FilesHold(env, t, s.jobs[r])
    ensures r in t.reqs && t.reqs[r] == s.reqs[r]
  {
    hide EInv, AtStart, FilesHold, CanStep, NewSerial, Next;
    BegunInv(env, s0);
    RunKeeps(env, s0.store.fs, s0, es, s);
    RunKeeps(env, s0.store.fs, s, fs, t);
    AnsweredFiles(env, s0.store.fs, s, r);
    AnswerStays(env, s, fs, t, r);
    AnsweredFiles(env, s0.store.fs, t, r);
  }

  /** The request that can be read out of the body as it arrived. */
  function Received(env: Env, q: Incoming): Option<Request> {
    if q.readFails then None else BodyEncoding.BodyRequest(q.body, env.parseCsr)
  }

  lemma VerdictIs(env: Env, q: Incoming)
    ensures var csr, verdict := Received(env, q), Verdict(env, q);
            && (verdict == Some(401) <==> q.peer.None?)
            && (verdict == Some(400) <==> q.peer.Some? && csr.None?)
            && (verdict == Some(403) <==>
                 q.reenroll && q.peer.Some? && csr.Some?
                 && (q.peer.value.commonName != csr.value.commonName
                     || Identity.SanString(q.peer.value.names) != Identity.SanString(csr.value.names)))
            && (verdict == None <==>
                 q.peer.Some? && csr.Some?
                 && (q.reenroll ==>
                       q.peer.value.commonName == csr.value.commonName
                       && Identity.SanString(q.peer.value.names) == Identity.SanString(csr.value.names)))
  {
    hide BodyEncoding.BodyRequest, Identity.SanString;
  }

  /** A 200 response is given only to what was authenticated, well-formed, matching and issued by the CA. */
  lemma ResponsesAreEarned(env: Env, s0: State, es: seq<Step>, s: State, r: nat)
    requires AtStart(s0) && Run(env, s0, es, s) && r in s.reqs && s.reqs[r].phase.Responded?
    ensures r in s.jobs && env.issues(s.jobs[r].csr, s.jobs[r].cert)
    ensures var q, job := s.reqs[r].incoming, s.jobs[r];
            && q.peer == Some(job.peer) && !q.readFails
            && BodyEncoding.BodyRequest(q.body, env.parseCsr) == Some(job.csr)
            && (q.reenroll ==>
                  job.peer.commonName == job.csr.commonName
                  && Identity.SanString(job.peer.names) == Identity.SanString(job.csr.names))
            && job.meta.requester == job.peer.commonName && job.meta.remoteAddr == q.remoteAddr
  {
    hide AtStart, CanStep, NewSerial, Next, Inv, BodyEncoding.BodyRequest, Identity.SanString, Reply, Body, Run,
         Verdict;
    BegunInv(env, s0);
    RunKeeps(env, s0.store.fs, s0, es, s);
    AnsweredSlice(env, s, r);
    VerdictIs(env, s.reqs[r].incoming);
  }

  /** What is refused for its own sake never reaches the CA or the store, and is never answered otherwise. */
  lemma RefusedEarly(env: Env, s0: State, es: seq<Step>, s: State, r: nat)
    requires AtStart(s0) && Run(env, s0, es, s) && r in s.reqs
    requires var q, csr := s.reqs[r].incoming, Received(env, s.reqs[r].incoming);
             || q.peer.None? || csr.None?
             || (q.reenroll
                 && (q.peer.value.commonName != csr.value.commonName
                     || Identity.SanString(q.peer.value.names) != Identity.SanString(csr.value.names)))
    ensures r !in s.jobs && forall id :: id in s.store.calls ==> id.owner != r
    ensures !s.reqs[r].phase.Responded? && !s.reqs[r].phase.Cleared?
    ensures s.reqs[r].phase.Refused? ==>
              s.reqs[r].phase.status == if s.reqs[r].incoming.peer.None? then 401
                                        else if Received(env, s.reqs[r].incoming).None? then 400 else 403
  {
    hide AtStart, CanStep, NewSerial, Next, Inv, Verdict, Reply, Body, Run, Received, Identity.SanString,
         BodyEncoding.BodyRequest;
    BegunInv(env, s0);
    RunKeeps(env, s0.store.fs, s0, es, s);
    VerdictIs(env, s.reqs[r].incoming);
    assert SliceOk(env, SliceOf(s, r));
    forall id | id in s.store.calls ensures id.owner != r {
      CallIs(env, s, id);
    }
  }

  lemma StatusByVerdict(env: Env, s: State, r: nat)
    requires SlicesOk(env, s) && r in s.reqs && s.reqs[r].phase.Refused?
    ensures match Verdict(env, s.reqs[r].incoming)
            case Some(status) => s.reqs[r].phase.status == status
            case None => s.reqs[r].phase.status == 400 || s.reqs[r].phase.status == 500
  {
    hide Verdict, Reply, Body;
    assert SliceOk(env, SliceOf(s, r));
  }

  lemma VerdictValues(env: Env, q: Incoming)
    ensures Verdict(env, q).Some? ==> Verdict(env, q).value in {401, 400, 403}
  {
  }

  /** A refusal is final, and a request stays what it was. */
  lemma RefusalStays(env: Env, s: State, e: Step, r: nat)
    requires CanStep(env, s, e) && r in s.reqs
    ensures var t := Next(env, s, e); r in t.reqs && t.reqs[r].incoming == s.reqs[r].incoming
    ensures s.reqs[r].phase.Refused? ==> Next(env, s, e).reqs[r] == s.reqs[r]
  {
    hide Enabled, NextFiles, AfterDecode, AfterMatch, AfterStored;
  }

  predicate CaRefused(s: State, r: nat) {
    r in s.reqs && s.reqs[r].phase == Refused(400)
  }

  /** Status 400 comes of the request itself or of the CA. */
  lemma WhenBadRequest(env: Env, s: State, e: Step, r: nat)
    requires CanStep(env, s, e) && CaRefused(Next(env, s, e), r) && !CaRefused(s, r)
    requires Verdict(env, Next(env, s, e).reqs[r].incoming) == None
    ensures e == IssueFails(r, true)
  {
    hide Enabled, NextFiles, BodyEncoding.BodyRequest, Identity.Matches, Reply, Body;
  }

  lemma {:induction false} BadSignatureInRun(env: Env, s: State, es: seq<Step>, t: State, r: nat)
    requires Run(env, s, es, t) && CaRefused(t, r) && Verdict(env, t.reqs[r].incoming) == None && !CaRefused(s, r)
    ensures IssueFails(r, true) in es
    decreases |es|
  {
    hide CanStep, NewSerial, Next, Verdict, CaRefused;
    if es != [] {
      var u := Next(env, s, es[0]);
      if CaRefused(u, r) {
        IncomingStays(env, u, es[1..], t, r);
        WhenBadRequest(env, s, es[0], r);
      } else {
        BadSignatureInRun(env, u, es[1..], t, r);
      }
    }
  }

  lemma {:induction false} IncomingStays(env: Env, s: State, es: seq<Step>, t: State, r: nat)
    requires Run(env, s, es, t) && CaRefused(s, r)
    ensures r in s.reqs && r in t.reqs && t.reqs[r] == s.reqs[r]
    decreases |es|
  {
    hide CanStep, NewSerial, Next;
    if es != [] {
      RefusalStays(env, s, es[0], r);
      IncomingStays(env, Next(env, s, es[0]), es[1..], t, r);
    }
  }

  lemma IssueFailsRefuses(env: Env, s: State, r: nat)
    requires CanStep(env, s, IssueFails(r, true)) && SlicesOk(env, s)
    ensures CaRefused(Next(env, s, IssueFails(r, true)), r)
    ensures r in s.reqs && Verdict(env, s.reqs[r].incoming) == None
  {
    hide Verdict, Reply, Body;
    assert SliceOk(env, SliceOf(s, r));
  }

  lemma {:induction false} BadSignatureRefuses(env: Env, init: Files, s: State, es: seq<Step>, t: State, r: nat)
    requires EInv(env, init, s) && Run(env, s, es, t) && IssueFails(r, true) in es
    ensures CaRefused(t, r) && Verdict(env, t.reqs[r].incoming) == None
    decreases |es|
  {
    hide CanStep, NewSerial, Next, Verdict, Inv, JobsDistinct, CallsBelong, SlicesOk;
    var u := Next(env, s, es[0]);
    if es[0] == IssueFails(r, true) {
      IssueFailsRefuses(env, s, r);
      RefusalStays(env, s, es[0], r);
      IncomingStays(env, u, es[1..], t, r);
    } else {
      Enrolment.StepKeeps(env, init, s, es[0]);
      BadSignatureRefuses(env, init, u, es[1..], t, r);
    }
  }

  /**
   Each refusal says what it is for: 401 no certificate, 403 a renewal under another name, 400 a body that gives no
   request or, exactly when the CA has found the request's signature bad, the CA's answer; 500 the rest.
   */
  lemma RefusalsAreExact(env: Env, s0: State, es: seq<Step>, s: State, r: nat)
    requires AtStart(s0) && Run(env, s0, es, s) && r in s.reqs && s.reqs[r].phase.Refused?
    ensures var q, csr, status := s.reqs[r].incoming, Received(env, s.reqs[r].incoming), s.reqs[r].phase.status;
            && (status == 401 <==> q.peer.None?)
            && (status == 403 <==>
                 q.reenroll && q.peer.Some? && csr.Some?
                 && (q.peer.value.commonName != csr.value.commonName
                     || Identity.SanString(q.peer.value.names) != Identity.SanString(csr.value.names)))
            && (status == 400 <==> (q.peer.Some? && csr.None?) || IssueFails(r, true) in es)
            && (status == 401 || status == 403 || status == 400 || status == 500)
  {
    hide AtStart, CanStep, NewSerial, Next, Inv, Verdict, Reply, Body, Run, SlicesOk, JobsDistinct, CallsBelong,
         Received, Identity.SanString;
    BegunInv(env, s0);
    RunKeeps(env, s0.store.fs, s0, es, s);
    StatusByVerdict(env, s, r);
    VerdictIs(env, s.reqs[r].incoming);
    VerdictValues(env, s.reqs[r].incoming);
    if IssueFails(r, true) in es {
      BadSignatureRefuses(env, s0.store.fs, s0, es, s, r);
    }
    if CaRefused(s, r) && Verdict(env, s.reqs[r].incoming) == None {
      NobodyYet(s0, r);
      BadSignatureInRun(env, s0, es, s, r);
    }
  }

  lemma NobodyYet(s: State, r: nat)
    requires AtStart(s)
    ensures !CaRefused(s, r)
  {
  }

  // -- Every reachable state --------------------------------------------------------------------

  /** Any file of the store is as at the start or one whole document of one request, whatever has died or failed. */
  lemma NothingPartial(env: Env, s0: State, es: seq<Step>, s: State, kind: Kind, serial: int)
    requires AtStart(s0) && Run(env, s0, es, s)
    ensures var p := PathOf(s.store.root, Final(kind, serial));
            Lookup(s.store.fs, p) == Lookup(s0.store.fs, p)
            || exists r ::
                 r in s.jobs && s.jobs[r].cert.serial == serial && Lookup(s.store.fs, p) == DataOf(env, s.jobs[r], kind)
  {
    hide CanStep, NewSerial, Next, Inv, PathOf, Lookup, Run, Steps, JobOk, Progress, EarlyOk, DataOf;
    var p := PathOf(s.store.root, Final(kind, serial));
    BegunInv(env, s0);
    RunKeeps(env, s0.store.fs, s0, es, s);
    var fs := RunsAreStoreRuns(env, s0.store.fs, s0, es, s);
    StoreMachine.NothingPartial(s0.store, fs, s.store, Final(kind, serial));
    if Lookup(s.store.fs, p) != Lookup(s0.store.fs, p) {
      var id := LastRename(s.store.calls, s.store.renames, Final(kind, serial)).value;
      CallData(env, s, id);
    }
  }

  lemma CallData(env: Env, s: State, id: CallId)
    requires CallsBelong(s) && SlicesOk(env, s) && id in s.store.calls
    ensures id.owner in s.jobs && s.store.calls[id].serial == s.jobs[id.owner].cert.serial
    ensures Some(s.store.calls[id].data) == DataOf(env, s.jobs[id.owner], s.store.calls[id].kind)
  {
    hide JobOk, Progress, EarlyOk;
    CallIs(env, s, id);
    assert SliceOk(env, SliceOf(s, id.owner));
  }

  lemma EarlierDone(env: Env, s: State, id: CallId)
    requires CallsBelong(s) && SlicesOk(env, s) && id in s.store.calls
    ensures id.owner in s.jobs
    ensures !s.store.calls[id].kind.Csr? ==> DoneCall(env, s, id.owner, Csr)
    ensures s.store.calls[id].kind.Meta? ==> DoneCall(env, s, id.owner, Cert)
  {
    hide JobOk, Progress, EarlyOk;
    CallIs(env, s, id);
    assert SliceOk(env, SliceOf(s, id.owner));
  }

  /**
   Documents reach the store in order, and no crash or failure shows them otherwise: where a certificate has been
   put its request is, and where metadata has been put both are, all of the same request.
   */
  lemma StoredInOrder(env: Env, s0: State, es: seq<Step>, s: State, kind: Kind, serial: int)
    requires AtStart(s0) && Run(env, s0, es, s)
    requires var p := PathOf(s.store.root, Final(kind, serial)); Lookup(s.store.fs, p) != Lookup(s0.store.fs, p)
    ensures exists r ::
              && r in s.jobs && s.jobs[r].cert.serial == serial
              && Lookup(s.store.fs, PathOf(s.store.root, Final(Csr, serial))) == Some(s.jobs[r].csr.raw)
              && (kind != Csr ==>
                    Lookup(s.store.fs, PathOf(s.store.root, Final(Cert, serial))) == Some(s.jobs[r].cert.raw))
              && (kind == Meta ==>
                    Lookup(s.store.fs, PathOf(s.store.root, Final(Meta, serial))) == env.metaJson(s.jobs[r].meta))
  {
    hide CanStep, NewSerial, Next, Inv, PathOf, Lookup, Run, Steps, CallsBelong, SlicesOk, JobsDistinct, Distinct,
         DoneCall;
    BegunInv(env, s0);
    RunKeeps(env, s0.store.fs, s0, es, s);
    var fs := RunsAreStoreRuns(env, s0.store.fs, s0, es, s);
    StoreMachine.NothingPartial(s0.store, fs, s.store, Final(kind, serial));
    var id := LastRename(s.store.calls, s.store.renames, Final(kind, serial)).value;
    CallData(env, s, id);
    EarlierDone(env, s, id);
    CallsDistinct(env, s);
    if kind != Csr {
      DoneFile(env, s0.store.fs, s, id.owner, Csr);
    }
    if kind == Meta {
      DoneFile(env, s0.store.fs, s, id.owner, Cert);
    }
  }

  /** Only names of issued serials ever change. */
  lemma NothingElseChanges(env: Env, s0: State, es: seq<Step>, s: State, p: string)
    requires AtStart(s0) && Run(env, s0, es, s) && Lookup(s.store.fs, p) != Lookup(s0.store.fs, p)
    ensures exists r, place: Place ::
              r in s.jobs && place.serial == s.jobs[r].cert.serial && p == PathOf(s.store.root, place)
  {
    hide CanStep, NewSerial, Next, Inv, PathOf, Lookup, Run, Steps, SlicesOk, CallsBelong;
    BegunInv(env, s0);
    RunKeeps(env, s0.store.fs, s0, es, s);
    var fs := RunsAreStoreRuns(env, s0.store.fs, s0, es, s);
    StoreMachine.NothingElseChanges(s0.store, fs, s.store, p);
    var id: CallId, place: Place :| id in s.store.calls && place.kind == s.store.calls[id].kind
      && place.serial == s.store.calls[id].serial && p == PathOf(s.store.root, place)
         && (place.Temp? ==> place in s.store.created);
    CallIs(env, s, id);
    assert id.owner in s.jobs && place.serial == s.jobs[id.owner].cert.serial;
  }

  /** When every request has been answered and no remove has failed, no temporary is left. */
  lemma NothingLeftBehind(env: Env, s0: State, es: seq<Step>, s: State, place: Place)
    requires AtStart(s0) && Run(env, s0, es, s)
    requires forall r :: r in s.reqs ==> s.reqs[r].phase.Responded? || s.reqs[r].phase.Refused?
    requires forall id ::
               id in s.store.calls && s.store.calls[id].stage.Failed? ==> s.store.calls[id].stage.left == None
    requires place in s.store.created
    ensures PathOf(s.store.root, place) !in s.store.fs
  {
    hide CanStep, NewSerial, Next, Inv, PathOf, Run, Steps, SliceOk, JobsDistinct;
    BegunInv(env, s0);
    RunKeeps(env, s0.store.fs, s0, es, s);
    var fs := RunsAreStoreRuns(env, s0.store.fs, s0, es, s);
    forall id | id in s.store.calls ensures CleanlyReturned(s.store.calls[id].stage) {
      CallOver(env, s, id);
    }
    StoreMachine.NothingLeftBehind(s0.store, fs, s.store, place);
  }

  lemma CallOver(env: Env, s: State, id: CallId)
    requires CallsBelong(s) && SlicesOk(env, s) && id in s.store.calls
    requires s.reqs[id.owner].phase.Responded? || s.reqs[id.owner].phase.Refused?
    ensures Returned(s.store.calls[id].stage)
  {
    hide JobOk, EarlyOk, Reply, Body;
    CallIs(env, s, id);
    assert SliceOk(env, SliceOf(s, id.owner));
  }

  /** A step the request can always take next, the system being at its least helpful. */
  function Ahead(s: State, r: nat): Step
    requires r in s.reqs
  {
    match s.reqs[r].phase
    case Arrived => Authenticate(r)
    case Authenticated => Decode(r)
    case Decoded(_) => Match(r)
    case Cleared(_) => IssueFails(r, false)
    case Storing(kind) =>
      (match CallAt(s, r, kind)
       case Some(c) => if Returned(c.stage) then WriteReturns(r) else FileStep(r, Fault(c.stage))
       case None => WriteReturns(r))
    case _ => Respond(r)
  }

  /** No request is ever stuck. */
  lemma AlwaysAStep(env: Env, s0: State, es: seq<Step>, s: State, r: nat)
    requires AtStart(s0) && Run(env, s0, es, s) && r in s.reqs
    requires !s.reqs[r].phase.Responded? && !s.reqs[r].phase.Refused? && !s.reqs[r].phase.Dropped?
    ensures CanStep(env, s, Ahead(s, r)) && NewSerial(s, Ahead(s, r))
  {
    hide Next, Inv, Run, JobOk, EarlyOk, Reply, Body, NextFiles, Enabled, Returned, Fault, AtStart, JobsDistinct,
         CallsBelong;
    BegunInv(env, s0);
    RunKeeps(env, s0.store.fs, s0, es, s);
    assert SliceOk(env, SliceOf(s, r));
    if s.reqs[r].phase.Storing? {
      FaultEnabled(s.store.root, s.store.fs, CallAt(s, r, s.reqs[r].phase.kind).value);
    }
  }

  /** A way for a call to go on that the system can always choose. */
  function Fault(s: Stage): Action {
    match s
    case Writing(_, _) => WriteFails
    case Written(_) => CloseFails
    case Closed(_) => ChmodFails
    case Chmodded(_) => RenameFails
    case Renamed(_) => Remove
    case Failing(_) => Remove
    case _ => CreateFails
  }

  lemma FaultEnabled(root: string, fs: Files, c: Call)
    ensures !Returned(c.stage) && !c.stage.Lost? ==> Enabled(root, fs, c, Fault(c.stage))
  {
  }

  // -- End to end ----------------------------------------------------------------------------------

  /** Which issued certificates a reply can be written for. */
  lemma ReplyExactly(cert: Certificate)
    ensures Reply(cert).Some? <==> 0 < |cert.raw| <= 0xffff_ffcd
  {
    hide Pkcs7.EncodeWire, Flatten;
    FlattenOne(cert.raw);
    Pkcs7Limits.EncodedSize(Flatten([cert.raw]));
  }

  lemma FlattenOne(raw: bytes)
    ensures Flatten([raw]) == raw
  {
    assert [raw][1..] == [] && raw + Flatten([]) == raw;
  }

  /**
   A client that unwraps and decodes the body of a 200 response gets the very certificate the store
   keeps, if that certificate is at most 2^32 - 56 bytes long, and otherwise nothing.
   */
  lemma ClientReads(env: Env, s0: State, es: seq<Step>, s: State, r: nat)
    requires AtStart(s0) && Run(env, s0, es, s) && r in s.reqs && s.reqs[r].phase.Responded?
    requires r in s.jobs && Complete(s.jobs[r].cert.raw) && env.parseCert(s.jobs[r].cert.raw) == Some(s.jobs[r].cert)
    ensures var der := Base64.Decode(BodyEncoding.StripRunes(s.reqs[r].phase.body)); var cert := s.jobs[r].cert;
            der.Some?
            && Pkcs7.Decode(der.value, env.parseCert)
               == if |cert.raw| <= 0xffff_ffc8 then Some([cert]) else None
    ensures Lookup(s.store.fs, PathOf(s.store.root, Final(Cert, s.jobs[r].cert.serial))) == Some(s.jobs[r].cert.raw)
  {
    hide AtStart, CanStep, NewSerial, Next, Inv, Run, PathOf, Lookup, Complete, JobOk;
    BegunInv(env, s0);
    RunKeeps(env, s0.store.fs, s0, es, s);
    AnsweredSlice(env, s, r);
    AnsweredFiles(env, s0.store.fs, s, r);
    BodyReads(env, s.jobs[r].cert);
  }

  lemma BodyReads(env: Env, cert: Certificate)
    requires Complete(cert.raw) && env.parseCert(cert.raw) == Some(cert) && Reply(cert).Some?
    ensures Base64.Decode(BodyEncoding.StripRunes(Body(Reply(cert).value))) == Some(Reply(cert).value)
    ensures Pkcs7.Decode(Reply(cert).value, env.parseCert)
         == if |cert.raw| <= 0xffff_ffc8 then Some([cert]) else None
  {
    hide Complete, BodyEncoding.StripRunes, BodyEncoding.Wrap, Base64.Encode, Base64.Decode, Pkcs7.EncodeWire,
         Pkcs7.Decode, Flatten;
    BodyEncoding.WrapRoundTrip(Reply(cert).value);
    assert Pkcs7.Raws([cert]) == [cert.raw];
    FlattenOne(cert.raw);
    Pkcs7Limits.RoundTripBySize([cert], env.parseCert);
  }
}
