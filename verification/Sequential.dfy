/** One request handled from beginning to end is a run of the machine: the code's order is the machine's. */
module Sequential {
  import opened Common
  import opened X509
  import opened Paths
  import opened AtomicWrite
  import opened Enrolment
  import opened LocalCa
  import BodyEncoding
  import EnrolmentProperties
  import FileStore
  import Identity

  // The calls of writeFileAtomic one request makes.
  datatype Trail = Trail(csr: FileStore.Leg, cert: Option<FileStore.Leg>, meta: Option<FileStore.Leg>)

  predicate PersistWent(root: string, fs: Files, cert: Certificate, csrDer: bytes, metaJson: Option<bytes>,
                        t: Trail, gs: Files, ok: bool) {
    && FileStore.Went(root, fs, Csr, cert.serial, csrDer, t.csr)
    && (t.cert.Some? <==> t.csr.call.stage.Done?)
    && (t.cert.Some? ==> FileStore.CertificateWent(root, t.csr.files, cert.serial, cert.raw, metaJson,
                                                      t.cert.value, t.meta, gs, ok))
    && (t.cert.None? ==> gs == t.csr.files && !ok)
  }

  lemma OneStep(env: Env, s: State, e: Step)
    requires CanStep(env, s, e) && NewSerial(s, e)
    ensures Run(env, s, [e], Next(env, s, e))
  {
    hide CanStep, NewSerial, Next;
    assert [e][1..] == [];
    assert Run(env, Next(env, s, e), [], Next(env, s, e));
  }

  /** A call under way in the machine. */
  predicate Under(s: State, r: nat, kind: Kind, c: Call) {
    && r in s.reqs && r in s.jobs && s.reqs[r].phase == Storing(kind)
    && Id(r, kind) in s.store.calls && s.store.calls[Id(r, kind)] == c
  }

  predicate SameRequest(s: State, t: State, r: nat) {
    && r in s.reqs && r in t.reqs && t.reqs[r].incoming == s.reqs[r].incoming
    && r in s.jobs && r in t.jobs && t.jobs[r] == s.jobs[r] && t.store.root == s.store.root
  }

  lemma FileStepIs(env: Env, s: State, r: nat, kind: Kind, c: Call, a: Action)
    requires Under(s, r, kind, c) && Enabled(s.store.root, s.store.fs, c, a)
    ensures CanStep(env, s, FileStep(r, a)) && NewSerial(s, FileStep(r, a))
    ensures var t := Next(env, s, FileStep(r, a));
            && Under(t, r, kind, c.(stage := NextStage(s.store.root, s.store.fs, c, a))) && SameRequest(s, t, r)
            && t.store.fs == NextFiles(s.store.root, s.store.fs, c, a)
  {
    hide Enabled, NextStage, NextFiles;
  }

  lemma {:induction false} LiftCall(env: Env, s: State, r: nat, kind: Kind, c: Call,
                                 trace: seq<Action>, gs: Files, d: Call)
    returns (es: seq<Step>, t: State)
    requires Under(s, r, kind, c) && CallRun(s.store.root, s.store.fs, c, trace, gs, d)
    ensures Run(env, s, es, t) && Under(t, r, kind, d) && SameRequest(s, t, r) && t.store.fs == gs
    decreases |trace|
  {
    hide CanStep, NewSerial, Next, Enabled, NextStage, NextFiles;
    if trace == [] {
      es, t := [], s;
    } else {
      FileStepIs(env, s, r, kind, c, trace[0]);
      var u := Next(env, s, FileStep(r, trace[0]));
      var rest;
      rest, t := LiftCall(env, u, r, kind, u.store.calls[Id(r, kind)], trace[1..], gs, d);
      es := [FileStep(r, trace[0])] + rest;
    }
  }

  lemma WriteReturnsIs(env: Env, s: State, r: nat, kind: Kind, d: Call)
    requires Under(s, r, kind, d) && Returned(d.stage)
    ensures CanStep(env, s, WriteReturns(r)) && NewSerial(s, WriteReturns(r))
    ensures var t, job := Next(env, s, WriteReturns(r)), s.jobs[r];
            && SameRequest(s, t, r) && t.store.fs == s.store.fs
            && (!d.stage.Done? ==> t.reqs[r].phase == Refused(500))
            && (d.stage.Done? && kind.Csr? ==> Under(t, r, Cert, Call(Cert, job.cert.serial, job.cert.raw, Start)))
            && (d.stage.Done? && kind.Cert? ==>
                  match env.metaJson(job.meta)
                  case None => t.reqs[r].phase == Refused(500)
                  case Some(json) => Under(t, r, Meta, Call(Meta, job.cert.serial, json, Start)))
            && (d.stage.Done? && kind.Meta? ==> t.reqs[r].phase == Stored)
  {
  }

  /** A whole call, and the handler going on from it. */
  lemma WriteRun(env: Env, s: State, r: nat, kind: Kind, data: bytes, leg: FileStore.Leg)
    returns (es: seq<Step>, t: State)
    requires r in s.jobs && Under(s, r, kind, Call(kind, s.jobs[r].cert.serial, data, Start))
    requires FileStore.Went(s.store.root, s.store.fs, kind, s.jobs[r].cert.serial, data, leg)
    ensures Run(env, s, es, t) && SameRequest(s, t, r) && t.store.fs == leg.files
    ensures !leg.call.stage.Done? ==> t.reqs[r].phase == Refused(500)
    ensures leg.call.stage.Done? && kind.Csr?
            ==> Under(t, r, Cert, Call(Cert, s.jobs[r].cert.serial, s.jobs[r].cert.raw, Start))
    ensures leg.call.stage.Done? && kind.Cert? ==>
              match env.metaJson(s.jobs[r].meta)
              case None => t.reqs[r].phase == Refused(500)
              case Some(json) => Under(t, r, Meta, Call(Meta, s.jobs[r].cert.serial, json, Start))
    ensures leg.call.stage.Done? && kind.Meta? ==> t.reqs[r].phase == Stored
  {
    hide CanStep, NewSerial, Next, CallRun, Run, Returned;
    var u;
    es, u := LiftCall(env, s, r, kind, s.store.calls[Id(r, kind)], leg.trace, leg.files, leg.call);
    WriteReturnsIs(env, u, r, kind, leg.call);
    t := Next(env, u, WriteReturns(r));
    OneStep(env, u, WriteReturns(r));
    EnrolmentProperties.RunConcat(env, s, es, u, [WriteReturns(r)], t);
    es := es + [WriteReturns(r)];
  }

  lemma PersistRun(env: Env, s: State, r: nat, trail: Trail, gs: Files, ok: bool) returns (es: seq<Step>, t: State)
    requires r in s.jobs && Under(s, r, Csr, Call(Csr, s.jobs[r].cert.serial, s.jobs[r].csr.raw, Start))
    requires PersistWent(s.store.root, s.store.fs, s.jobs[r].cert, s.jobs[r].csr.raw, env.metaJson(s.jobs[r].meta),
             trail, gs, ok)
    ensures Run(env, s, es, t) && SameRequest(s, t, r) && t.store.fs == gs
    ensures t.reqs[r].phase == if ok then Stored else Refused(500)
  {
    hide Run, FileStore.Went, Returned;
    es, t := WriteRun(env, s, r, Csr, s.jobs[r].csr.raw, trail.csr);
    if trail.cert.Some? {
      var fs, u := WriteRun(env, t, r, Cert, s.jobs[r].cert.raw, trail.cert.value);
      EnrolmentProperties.RunConcat(env, s, es, t, fs, u);
      es, t := es + fs, u;
      if trail.meta.Some? {
        var hs, v := WriteRun(env, u, r, Meta, env.metaJson(s.jobs[r].meta).value, trail.meta.value);
        EnrolmentProperties.RunConcat(env, s, es, u, hs, v);
        es, t := es + hs, v;
      }
    }
  }

  predicate ClearedAt(s: State, r: nat, q: Incoming, csr: Request) {
    r in s.reqs && q.peer.Some? && s.reqs[r] == Req(q, Cleared(csr))
  }

  /** What the machine asks of an answer of the CA. */
  predicate Fits(env: Env, s: State, csr: Request, answer: Answer) {
    answer.Issued? ==>
      && env.issues(csr, answer.cert)
      && forall r :: r in s.jobs ==> s.jobs[r].cert.serial != answer.cert.serial
  }

  /** The in-process CA as the machine's CA. */
  ghost predicate LocalBackend(env: Env, lib: Library) {
    forall csr: Request, cert: Certificate :: env.issues(csr, cert) <==> IssuedBy(lib, csr, cert)
  }

  /** Its answers fit, serials apart. */
  lemma LocalAnswerFits(env: Env, lib: Library, s: State, csr: Request, answer: Answer)
    requires LocalBackend(env, lib)
    requires answer.Issued? ==> IssuedBy(lib, csr, answer.cert)
    ensures Fits(env, s, csr, answer) <==>
            (answer.Issued? ==> forall r :: r in s.jobs ==> s.jobs[r].cert.serial != answer.cert.serial)
  {
    hide IssuedBy;
  }

  /** The status a phase stands for. */
  function StatusOf(p: Phase): nat {
    match p
    case Responded(_) => 200
    case Refused(status) => status
    case _ => 0
  }

  lemma RefusedRun(env: Env, s: State, r: nat, q: Incoming, csr: Request, bad: bool) returns (es: seq<Step>, t: State)
    requires ClearedAt(s, r, q, csr)
    ensures Run(env, s, es, t) && r in t.reqs && t.reqs[r].phase == Refused(if bad then 400 else 500)
            && t.store == s.store
  {
    es, t := [IssueFails(r, bad)], Next(env, s, IssueFails(r, bad));
    OneStep(env, s, IssueFails(r, bad));
  }

  lemma IssueIs(env: Env, s: State, r: nat, q: Incoming, csr: Request, cert: Certificate, now: int)
    requires ClearedAt(s, r, q, csr) && Fits(env, s, csr, Issued(cert))
    ensures CanStep(env, s, Issue(r, cert, now)) && NewSerial(s, Issue(r, cert, now))
    ensures var t := Next(env, s, Issue(r, cert, now));
            && t.store.fs == s.store.fs && t.store.root == s.store.root && r in t.jobs && r in t.reqs
            && t.jobs[r] == Job(q.peer.value, csr, cert, Metadata(q.peer.value.commonName, q.remoteAddr, now))
            && Under(t, r, Csr, Call(Csr, cert.serial, csr.raw, Start))
  {
  }

  lemma RespondIs(env: Env, s: State, r: nat)
    requires r in s.reqs && r in s.jobs && s.reqs[r].phase == Stored
    ensures CanStep(env, s, Respond(r)) && NewSerial(s, Respond(r))
    ensures var t := Next(env, s, Respond(r));
              r in t.reqs && t.store == s.store && t.reqs[r].phase == AfterStored(s.jobs[r].cert)
  {
    hide AfterStored;
  }

  lemma IssuedRun(env: Env, s: State, r: nat, q: Incoming, csr: Request, cert: Certificate, now: int,
                  trail: Trail, gs: Files, ok: bool) returns (es: seq<Step>, t: State)
    requires ClearedAt(s, r, q, csr) && Fits(env, s, csr, Issued(cert))
    requires var meta := Metadata(q.peer.value.commonName, q.remoteAddr, now);
             PersistWent(s.store.root, s.store.fs, cert, csr.raw, env.metaJson(meta), trail, gs, ok)
    ensures Run(env, s, es, t) && r in t.reqs && t.store.fs == gs
    ensures t.reqs[r].phase == if ok then AfterStored(cert) else Refused(500)
  {
    hide Run, PersistWent, CanStep, NewSerial, Next, AfterStored, Fits, Under;
    IssueIs(env, s, r, q, csr, cert, now);
    var e := Issue(r, cert, now);
    var u := Next(env, s, e);
    OneStep(env, s, e);
    var fs, v := PersistRun(env, u, r, trail, gs, ok);
    EnrolmentProperties.RunConcat(env, s, [e], u, fs, v);
    es, t := [e] + fs, v;
    if ok {
      RespondIs(env, v, r);
      t := Next(env, v, Respond(r));
      OneStep(env, v, Respond(r));
      EnrolmentProperties.RunConcat(env, s, es, v, [Respond(r)], t);
      es := es + [Respond(r)];
    }
  }

  /** From arrival to where the CA is asked, or to the refusal before. */
  lemma EarlyRun(env: Env, s: State, r: nat, q: Incoming) returns (es: seq<Step>, t: State)
    requires r !in s.reqs
    ensures Run(env, s, es, t) && r in t.reqs && t.reqs[r].incoming == q && t.store == s.store && t.jobs == s.jobs
    ensures q.peer.None? ==> t.reqs[r].phase == Refused(401)
    ensures q.peer.Some? && (q.readFails || BodyRequestOf(env, q).None?) ==> t.reqs[r].phase == Refused(400)
    ensures q.peer.Some? && !q.readFails && BodyRequestOf(env, q).Some? ==>
              var peer, csr := q.peer.value, BodyRequestOf(env, q).value;
              t.reqs[r].phase == if q.reenroll && (peer.commonName != csr.commonName
                                                   || Identity.SanString(peer.names) != Identity.SanString(csr.names))
                                 then Refused(403) else Cleared(csr)
  {
    hide Identity.SanString, BodyEncoding.BodyRequest;
    es, t := OnceMore(env, s, [], s, Arrive(r, q));
    es, t := OnceMore(env, s, es, t, Authenticate(r));
    if q.peer.Some? {
      es, t := OnceMore(env, s, es, t, Decode(r));
      if !q.readFails && BodyRequestOf(env, q).Some? {
        es, t := OnceMore(env, s, es, t, Match(r));
      }
    }
  }

  function BodyRequestOf(env: Env, q: Incoming): Option<Request> {
    BodyEncoding.BodyRequest(q.body, env.parseCsr)
  }

  lemma OnceMore(env: Env, s: State, es: seq<Step>, t: State, e: Step) returns (fs: seq<Step>, u: State)
    requires Run(env, s, es, t) && CanStep(env, t, e) && NewSerial(t, e)
    ensures fs == es + [e] && u == Next(env, t, e) && Run(env, s, fs, u)
  {
    hide CanStep, NewSerial, Next, Run;
    OneStep(env, t, e);
    fs, u := es + [e], Next(env, t, e);
    EnrolmentProperties.RunConcat(env, s, es, t, [e], u);
  }
}
