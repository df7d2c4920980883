/**
 The enrolment handlers as a machine: any number of requests interleaved at the granularity of
 single file operations, any step failing, the process dying at any point and starting again.
 */
module Enrolment {
  import opened Common
  import opened X509
  import opened Paths
  import opened AtomicWrite
  import opened StoreMachine
  import Identity
  import BodyEncoding
  import Base64
  import Pkcs7

  datatype Incoming = Incoming(reenroll: bool, peer: Option<Certificate>, body: bytes, readFails: bool,
                               remoteAddr: string)

  datatype Metadata = Metadata(requester: string, remoteAddr: string, receivedAt: int)

  // What the program is given: parsers, the metadata's JSON form, and the CA as the relation between
  // a request and the certificates it may answer with.
  datatype Env = Env(parseCsr: RequestParser, parseCert: CertParser, metaJson: Metadata -> Option<bytes>,
                     issues: (Request, Certificate) -> bool)

  datatype Phase =
    | Arrived
    | Authenticated
    | Decoded(csr: Request)
    | Cleared(csr: Request)
    | Storing(kind: Kind)
    | Stored
    | Responded(body: bytes)
    | Refused(status: nat)
    | Dropped

  datatype Req = Req(incoming: Incoming, phase: Phase)

  datatype Job = Job(peer: Certificate, csr: Request, cert: Certificate, meta: Metadata)

  datatype State = State(store: Store, reqs: map<nat, Req>, jobs: map<nat, Job>)

  datatype Step =
    | Arrive(r: nat, incoming: Incoming)
    | Authenticate(r: nat)
    | Decode(r: nat)
    | Match(r: nat)
    | Issue(r: nat, cert: Certificate, now: int)
    | IssueFails(r: nat, badSignature: bool)
    | FileStep(r: nat, action: Action)
    | WriteReturns(r: nat)
    | Respond(r: nat)
    | Die

  function Index(kind: Kind): nat {
    match kind case Csr => 0 case Cert => 1 case Meta => 2
  }

  function Id(r: nat, kind: Kind): CallId {
    CallId(r, Index(kind))
  }

  /** The hypothesis on the CA: it issues no serial twice. */
  predicate NewSerial(s: State, e: Step) {
    e.Issue? ==> forall r :: r in s.jobs ==> s.jobs[r].cert.serial != e.cert.serial
  }

  predicate CanStep(env: Env, s: State, e: Step) {
    if e.Arrive? then e.r !in s.reqs
    else if e.Die? then true
    else
      e.r in s.reqs &&
      var phase := s.reqs[e.r].phase;
      match e
      case Authenticate(_) => phase.Arrived?
      case Decode(_) => phase.Authenticated?
      case Match(_) => phase.Decoded?
      case Issue(_, cert, _) => phase.Cleared? && env.issues(phase.csr, cert)
      case IssueFails(_, _) => phase.Cleared?
      case FileStep(r, a) =>
        phase.Storing? && Id(r, phase.kind) in s.store.calls
        && Enabled(s.store.root, s.store.fs, s.store.calls[Id(r, phase.kind)], a)
      case WriteReturns(r) =>
        phase.Storing? && Id(r, phase.kind) in s.store.calls && Returned(s.store.calls[Id(r, phase.kind)].stage)
        && r in s.jobs
      case Respond(r) => phase.Stored? && r in s.jobs
  }

  function To(s: State, r: nat, phase: Phase): State
    requires r in s.reqs
  {
    s.(reqs := s.reqs[r := s.reqs[r].(phase := phase)])
  }

  function Begins(s: State, r: nat, kind: Kind, serial: int, data: bytes): State
    requires r in s.reqs
  {
    To(s, r, Storing(kind)).(store := s.store.(calls := s.store.calls[Id(r, kind) := Call(kind, serial, data, Start)]))
  }

  function AfterAuthenticate(q: Incoming): Phase {
    if q.peer.None? then Refused(401) else Authenticated
  }

  function AfterDecode(env: Env, q: Incoming): Phase {
    if q.readFails then Refused(400)
    else match BodyEncoding.BodyRequest(q.body, env.parseCsr)
      case None => Refused(400)
      case Some(csr) => Decoded(csr)
  }

  function AfterMatch(q: Incoming, csr: Request): Phase {
    if q.reenroll && q.peer.Some? && !Identity.Matches(q.peer.value, csr) then Refused(403) else Cleared(csr)
  }

  /** The certs-only message for one certificate, if it can be written. */
  function Reply(cert: Certificate): Option<bytes> {
    if cert.raw == [] then None else Pkcs7.EncodeWire(Flatten([cert.raw]))
  }

  function Body(der: bytes): bytes {
    BodyEncoding.Wrap(Base64.Encode(der))
  }

  function AfterStored(cert: Certificate): Phase {
    match Reply(cert) case None => Refused(500) case Some(der) => Responded(Body(der))
  }

  function DropPhase(p: Phase): Phase {
    if p.Responded? || p.Refused? then p else Dropped
  }

  function AfterWrite(env: Env, s: State, r: nat): State
    requires CanStep(env, s, WriteReturns(r))
  {
    var kind, job := s.reqs[r].phase.kind, s.jobs[r];
    if !s.store.calls[Id(r, kind)].stage.Done? then To(s, r, Refused(500))
    else
      match kind
      case Csr => Begins(s, r, Cert, job.cert.serial, job.cert.raw)
      case Cert =>
        (match env.metaJson(job.meta)
         case None => To(s, r, Refused(500))
         case Some(json) => Begins(s, r, Meta, job.cert.serial, json))
      case Meta => To(s, r, Stored)
  }

  function Next(env: Env, s: State, e: Step): State
    requires CanStep(env, s, e)
  {
    match e
    case Arrive(r, q) => s.(reqs := s.reqs[r := Req(q, Arrived)])
    case Authenticate(r) => To(s, r, AfterAuthenticate(s.reqs[r].incoming))
    case Decode(r) => To(s, r, AfterDecode(env, s.reqs[r].incoming))
    case Match(r) => To(s, r, AfterMatch(s.reqs[r].incoming, s.reqs[r].phase.csr))
    case Issue(r, cert, now) =>
      var q, csr := s.reqs[r].incoming, s.reqs[r].phase.csr;
      if q.peer.None? then s
      else
        var job := Job(q.peer.value, csr, cert, Metadata(q.peer.value.commonName, q.remoteAddr, now));
        Begins(s, r, Csr, cert.serial, csr.raw).(jobs := s.jobs[r := job])
    case IssueFails(r, badSignature) => To(s, r, Refused(if badSignature then 400 else 500))
    case FileStep(r, a) => s.(store := Happen(s.store, Act(Id(r, s.reqs[r].phase.kind), a)))
    case WriteReturns(r) => AfterWrite(env, s, r)
    case Respond(r) => To(s, r, AfterStored(s.jobs[r].cert))
    case Die =>
      s.(store := Happen(s.store, Crash),
         reqs := map r | r in s.reqs :: s.reqs[r].(phase := DropPhase(s.reqs[r].phase)))
  }

  predicate AtStart(s: State) {
    StoreMachine.Initial(s.store) && s.reqs == map[] && s.jobs == map[]
  }

  ghost predicate Run(env: Env, s: State, es: seq<Step>, t: State)
    decreases |es|
  {
    if es == [] then s == t
    else CanStep(env, s, es[0]) && NewSerial(s, es[0]) && Run(env, Next(env, s, es[0]), es[1..], t)
  }

  // -- What each request has done so far ----------------------------------------------------

  // All of the state that one request's steps look at or change.
  datatype Slice = Slice(req: Req, job: Option<Job>, csr: Option<Call>, cert: Option<Call>, meta: Option<Call>)

  function CallAt(s: State, r: nat, kind: Kind): Option<Call> {
    if Id(r, kind) in s.store.calls then Some(s.store.calls[Id(r, kind)]) else None
  }

  function JobAt(s: State, r: nat): Option<Job> {
    if r in s.jobs then Some(s.jobs[r]) else None
  }

  function SliceOf(s: State, r: nat): Slice
    requires r in s.reqs
  {
    Slice(s.reqs[r], JobAt(s, r), CallAt(s, r, Csr), CallAt(s, r, Cert), CallAt(s, r, Meta))
  }

  predicate WritesTo(c: Option<Call>, kind: Kind, job: Job, data: Option<bytes>) {
    c.Some? ==> c.value.kind == kind && c.value.serial == job.cert.serial && Some(c.value.data) == data
  }

  predicate IsDone(c: Option<Call>) {
    c.Some? && c.value.stage.Done?
  }

  predicate IsLive(c: Option<Call>) {
    c.Some? && !c.value.stage.Lost?
  }

  predicate OverIfAny(c: Option<Call>) {
    c.Some? ==> Returned(c.value.stage)
  }

  /** What a request is refused with for its own sake, before the CA is asked. */
  function Verdict(env: Env, q: Incoming): Option<nat> {
    if q.peer.None? then Some(401)
    else if q.readFails then Some(400)
    else
      match BodyEncoding.BodyRequest(q.body, env.parseCsr)
      case None => Some(400)
      case Some(csr) => if q.reenroll && !Identity.Matches(q.peer.value, csr) then Some(403) else None
  }

  predicate JobOk(env: Env, q: Incoming, job: Job) {
    && Verdict(env, q) == None
    && q.peer == Some(job.peer)
    && BodyEncoding.BodyRequest(q.body, env.parseCsr) == Some(job.csr)
    && env.issues(job.csr, job.cert)
    && job.meta.requester == job.peer.commonName && job.meta.remoteAddr == q.remoteAddr
  }

  predicate Early(p: Phase) {
    p.Arrived? || p.Authenticated? || p.Decoded? || p.Cleared?
  }

  predicate EarlyOk(env: Env, q: Incoming, p: Phase) {
    && (!p.Arrived? && Early(p) ==> q.peer.Some?)
    && (p.Decoded? || p.Cleared? ==> !q.readFails && BodyEncoding.BodyRequest(q.body, env.parseCsr) == Some(p.csr))
    && (p.Cleared? ==> Verdict(env, q) == None)
    && (p.Refused? ==>
          match Verdict(env, q)
          case Some(status) => p.status == status
          case None => p.status == 400 || p.status == 500)
  }

  predicate Progress(env: Env, x: Slice)
    requires x.job.Some?
  {
    var job := x.job.value;
    match x.req.phase
    case Storing(kind) =>
      (match kind
       case Csr => IsLive(x.csr) && x.cert.None? && x.meta.None?
       case Cert => IsDone(x.csr) && IsLive(x.cert) && x.meta.None?
       case Meta => IsDone(x.csr) && IsDone(x.cert) && IsLive(x.meta))
    case Stored => IsDone(x.csr) && IsDone(x.cert) && IsDone(x.meta)
    case Responded(body) =>
      IsDone(x.csr) && IsDone(x.cert) && IsDone(x.meta) && Reply(job.cert).Some? && body == Body(Reply(job.cert).value)
    case Refused(status) => status == 500 && OverIfAny(x.csr) && OverIfAny(x.cert) && OverIfAny(x.meta)
    case Dropped => true
    case _ => false
  }

  /** A document is begun only when the one before it is done. */
  predicate InOrder(x: Slice) {
    (x.cert.Some? ==> IsDone(x.csr)) && (x.meta.Some? ==> IsDone(x.cert))
  }

  predicate SliceOk(env: Env, x: Slice) {
    match x.job
    case None =>
      && x.csr.None? && x.cert.None? && x.meta.None?
      && (Early(x.req.phase) || x.req.phase.Refused? || x.req.phase.Dropped?)
      && EarlyOk(env, x.req.incoming, x.req.phase)
    case Some(job) =>
      && JobOk(env, x.req.incoming, job)
      && WritesTo(x.csr, Csr, job, Some(job.csr.raw))
      && WritesTo(x.cert, Cert, job, Some(job.cert.raw))
      && WritesTo(x.meta, Meta, job, env.metaJson(job.meta))
      && InOrder(x)
      && Progress(env, x)
  }

  predicate JobsDistinct(s: State) {
    forall a, b :: a in s.jobs && b in s.jobs && a != b ==> s.jobs[a].cert.serial != s.jobs[b].cert.serial
  }

  predicate CallsBelong(s: State) {
    && (forall id :: id in s.store.calls ==> id.owner in s.reqs && id.index < 3)
    && (forall r :: r in s.jobs ==> r in s.reqs)
  }

  predicate SlicesOk(env: Env, s: State) {
    forall r :: r in s.reqs ==> SliceOk(env, SliceOf(s, r))
  }

  ghost predicate EInv(env: Env, init: Files, s: State) {
    Inv(init, s.store) && JobsDistinct(s) && CallsBelong(s) && SlicesOk(env, s)
  }

  /** Distinct serials make distinct final names. */
  lemma CallsDistinct(env: Env, s: State)
    requires JobsDistinct(s) && CallsBelong(s) && SlicesOk(env, s)
    ensures Distinct(s.store)
  {
    hide JobOk, Progress, EarlyOk;
    forall i, j | i in s.store.calls && j in s.store.calls && i != j
      ensures !SameTarget(s.store.calls[i], s.store.calls[j])
    {
      CallIs(env, s, i);
      CallIs(env, s, j);
    }
  }

  function KindAt(index: nat): Kind {
    if index == 0 then Csr else if index == 1 then Cert else Meta
  }

  lemma CallIs(env: Env, s: State, id: CallId)
    requires CallsBelong(s) && SlicesOk(env, s) && id in s.store.calls
    ensures id.owner in s.jobs && id == Id(id.owner, s.store.calls[id].kind)
    ensures s.store.calls[id].serial == s.jobs[id.owner].cert.serial
  {
    hide JobOk, Progress, EarlyOk;
    assert id == Id(id.owner, KindAt(id.index));
    var x := SliceOf(s, id.owner);
    assert SliceOk(env, x);
    assert CallAt(s, id.owner, KindAt(id.index)).Some?;
  }

  // -- Every step keeps it --------------------------------------------------------------------

  /** A step is local to its request. */
  lemma OthersUntouched(env: Env, s: State, e: Step, r: nat)
    requires CanStep(env, s, e) && !e.Die? && r != e.r && r in s.reqs
    ensures r in Next(env, s, e).reqs && SliceOf(Next(env, s, e), r) == SliceOf(s, r)
  {
    hide Enabled, NextFiles, AfterDecode, AfterMatch, AfterStored;
  }

  lemma ArriveOwn(env: Env, s: State, e: Step)
    requires CanStep(env, s, e) && CallsBelong(s) && e.Arrive?
    ensures SliceOk(env, SliceOf(Next(env, s, e), e.r))
  {
    assert forall kind :: Id(e.r, kind).owner == e.r;
  }

  lemma EarlyOwn(env: Env, s: State, e: Step)
    requires CanStep(env, s, e) && !e.Arrive? && !e.Die? && SliceOk(env, SliceOf(s, e.r))
    requires e.Authenticate? || e.Decode? || e.Match? || e.IssueFails?
    ensures SliceOk(env, SliceOf(Next(env, s, e), e.r))
  {
    hide BodyEncoding.BodyRequest, Identity.Matches;
  }

  lemma IssueOwn(env: Env, s: State, e: Step)
    requires CanStep(env, s, e) && e.Issue? && SliceOk(env, SliceOf(s, e.r))
    ensures SliceOk(env, SliceOf(Next(env, s, e), e.r))
    ensures s.reqs[e.r].incoming.peer.Some?
    ensures e.r !in s.jobs && Id(e.r, Csr) !in s.store.calls
  {
    hide BodyEncoding.BodyRequest, Identity.Matches;
  }

  lemma FileStepOwn(env: Env, s: State, e: Step)
    requires CanStep(env, s, e) && e.FileStep? && SliceOk(env, SliceOf(s, e.r))
    ensures SliceOk(env, SliceOf(Next(env, s, e), e.r))
  {
    hide JobOk, Enabled, NextFiles, Reply, Body;
  }

  lemma WriteReturnsOwn(env: Env, s: State, e: Step)
    requires CanStep(env, s, e) && e.WriteReturns? && SliceOk(env, SliceOf(s, e.r))
    ensures SliceOk(env, SliceOf(Next(env, s, e), e.r))
  {
    hide JobOk, Reply, Body;
  }

  lemma RespondOwn(env: Env, s: State, e: Step)
    requires CanStep(env, s, e) && e.Respond? && SliceOk(env, SliceOf(s, e.r))
    ensures SliceOk(env, SliceOf(Next(env, s, e), e.r))
  {
    hide JobOk, Reply, Body;
  }

  lemma OwnStep(env: Env, s: State, e: Step)
    requires CanStep(env, s, e) && !e.Die? && CallsBelong(s) && SlicesOk(env, s)
    ensures e.r in Next(env, s, e).reqs && SliceOk(env, SliceOf(Next(env, s, e), e.r))
  {
    hide CanStep, Next, SliceOf, SliceOk;
    StaysKnown(env, s, e);
    if e.Arrive? {
      ArriveOwn(env, s, e);
    } else {
      assert SliceOk(env, SliceOf(s, e.r));
      match e {
        case Issue(_, _, _) => IssueOwn(env, s, e);
        case FileStep(_, _) => FileStepOwn(env, s, e);
        case WriteReturns(_) => WriteReturnsOwn(env, s, e);
        case Respond(_) => RespondOwn(env, s, e);
        case _ => EarlyOwn(env, s, e);
      }
    }
  }

  lemma StaysKnown(env: Env, s: State, e: Step)
    requires CanStep(env, s, e)
    ensures !e.Die? ==> e.r in Next(env, s, e).reqs && (!e.Arrive? ==> e.r in s.reqs)
    ensures !e.Die? ==> Next(env, s, e).reqs.Keys == s.reqs.Keys + {e.r}
    ensures e.Die? ==> Next(env, s, e).reqs.Keys == s.reqs.Keys
  {
    hide Enabled, NextFiles, AfterDecode, AfterMatch, AfterStored;
  }

  lemma SlicesKept(env: Env, s: State, e: Step)
    requires CanStep(env, s, e) && !e.Die? && CallsBelong(s) && SlicesOk(env, s)
    ensures SlicesOk(env, Next(env, s, e))
  {
    hide CanStep, Next, SliceOf, SliceOk;
    var t := Next(env, s, e);
    StaysKnown(env, s, e);
    forall r | r in t.reqs ensures SliceOk(env, SliceOf(t, r)) {
      if r == e.r {
        OwnStep(env, s, e);
      } else {
        OthersUntouched(env, s, e, r);
      }
    }
  }

  function DeadCall(c: Option<Call>): Option<Call> {
    if c.None? then None else Some(c.value.(stage := Dead(c.value.stage)))
  }

  function DeadSlice(x: Slice): Slice {
    Slice(x.req.(phase := DropPhase(x.req.phase)), x.job, DeadCall(x.csr), DeadCall(x.cert), DeadCall(x.meta))
  }

  lemma DieSlice(env: Env, s: State, r: nat)
    requires r in s.reqs
    ensures SliceOf(Next(env, s, Die), r) == DeadSlice(SliceOf(s, r))
  {
  }

  lemma DeadSliceOk(env: Env, x: Slice)
    requires SliceOk(env, x)
    ensures SliceOk(env, DeadSlice(x))
  {
    hide JobOk, Reply, Body;
  }

  lemma DieKeeps(env: Env, s: State)
    requires CallsBelong(s) && SlicesOk(env, s) && JobsDistinct(s)
    ensures var t := Next(env, s, Die); CallsBelong(t) && SlicesOk(env, t) && JobsDistinct(t)
  {
    hide SliceOf, SliceOk;
    var t := Next(env, s, Die);
    forall r | r in t.reqs ensures SliceOk(env, SliceOf(t, r)) {
      DieSlice(env, s, r);
      DeadSliceOk(env, SliceOf(s, r));
    }
  }

  lemma BelongKept(env: Env, s: State, e: Step)
    requires CanStep(env, s, e) && !e.Die? && CallsBelong(s)
    ensures CallsBelong(Next(env, s, e))
  {
    hide Enabled, NextFiles, AfterDecode, AfterMatch, AfterStored;
  }

  lemma JobsStayDistinct(env: Env, s: State, e: Step)
    requires CanStep(env, s, e) && NewSerial(s, e) && !e.Die? && JobsDistinct(s)
    ensures JobsDistinct(Next(env, s, e))
  {
    hide Enabled, NextFiles, AfterDecode, AfterMatch, AfterStored;
  }

  /** What a step is to the store. */
  function StoreEvents(env: Env, s: State, e: Step): seq<Event>
    requires CanStep(env, s, e)
  {
    match e
    case Issue(r, cert, _) => [Begin(Id(r, Csr), Csr, cert.serial, s.reqs[r].phase.csr.raw)]
    case FileStep(r, a) => [Act(Id(r, s.reqs[r].phase.kind), a)]
    case WriteReturns(r) =>
      var kind, job := s.reqs[r].phase.kind, s.jobs[r];
      if !s.store.calls[Id(r, kind)].stage.Done? then []
      else if kind == Csr then [Begin(Id(r, Cert), Cert, job.cert.serial, job.cert.raw)]
      else if kind == Cert && env.metaJson(job.meta).Some? then
        [Begin(Id(r, Meta), Meta, job.cert.serial, env.metaJson(job.meta).value)]
      else []
    case Die => [Crash]
    case _ => []
  }

  lemma StoreStep(env: Env, s: State, e: Step)
    requires CanStep(env, s, e) && (!e.Arrive? && !e.Die? ==> SliceOk(env, SliceOf(s, e.r)))
    ensures var es, t := StoreEvents(env, s, e), Next(env, s, e);
            if es == [] then t.store == s.store
            else |es| == 1 && CanHappen(s.store, es[0]) && t.store == Happen(s.store, es[0])
  {
    hide Enabled, NextFiles, JobOk, Reply, Body, AfterDecode, AfterMatch, AfterStored;
  }

  lemma StepKeeps(env: Env, init: Files, s: State, e: Step)
    requires EInv(env, init, s) && CanStep(env, s, e) && NewSerial(s, e)
    ensures EInv(env, init, Next(env, s, e))
    ensures StoreMachine.Steps(s.store, StoreEvents(env, s, e), Next(env, s, e).store)
  {
    hide CanStep, NewSerial, Next, Inv, Happen, CanHappen, Fresh, StoreEvents, SliceOk, JobsDistinct, CallsBelong,
         Distinct;
    StaysKnown(env, s, e);
    StoreStep(env, s, e);
    var es, t := StoreEvents(env, s, e), Next(env, s, e);
    if es != [] {
      CallsDistinct(env, s);
      InvOwned(init, s.store);
      DistinctIsFresh(s.store, es[0]);
      StoreMachine.StepKeeps(init, s.store, es[0]);
      assert es[1..] == [];
    }
    if e.Die? {
      DieKeeps(env, s);
    } else {
      BelongKept(env, s, e);
      JobsStayDistinct(env, s, e);
      SlicesKept(env, s, e);
    }
  }

  lemma InvOwned(init: Files, s: Store)
    requires Inv(init, s)
    ensures Owned(s)
  {
    hide Owned, Exclusive, Contents, Finals, NoOrphans;
  }
}
