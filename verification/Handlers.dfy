/** The enrolment handlers as they run for one request: statuses, effects and their order. */
module Handlers {
  import opened Common
  import opened X509
  import opened Paths
  import opened AtomicWrite
  import opened LocalCa
  import opened Enrolment
  import opened Reenrolment
  import opened Sequential
  import Base64
  import BodyEncoding
  import EnrolmentProperties
  import FileStore
  import Identity
  import Pkcs7
  import Serial

  const PKCS7_MIME := "application/pkcs7-mime; smime-type=certs-only"

  datatype WriteFaults = WriteFaults(csr: FileStore.Faults, cert: FileStore.Faults, meta: FileStore.Faults)

  /** When a 200 response comes of an issued certificate. */
  predicate AllGoesWell(env: Env, root: string, fs: Files, q: Incoming, cert: Certificate, now: int, f: WriteFaults)
    requires q.peer.Some?
  {
    && FileStore.Succeeds(root, fs, Csr, cert.serial, f.csr)
    && FileStore.Succeeds(root, fs, Cert, cert.serial, f.cert)
    && FileStore.Succeeds(root, fs, Meta, cert.serial, f.meta)
    && env.metaJson(MetaFor(q, now)).Some?
    && 0 < |cert.raw| <= 0xffff_ffcd
  }

  function MetaFor(q: Incoming, now: int): Metadata
    requires q.peer.Some?
  {
    Metadata(q.peer.value.commonName, q.remoteAddr, now)
  }

  /** The store after all three writes. */
  predicate FilesAre(root: string, fs: Files, serial: int, csrDer: bytes, certDer: bytes, metaJson: bytes) {
    && Lookup(fs, PathOf(root, Final(Csr, serial))) == Some(csrDer)
    && Lookup(fs, PathOf(root, Final(Cert, serial))) == Some(certDer)
    && Lookup(fs, PathOf(root, Final(Meta, serial))) == Some(metaJson)
  }

  /** The response says what the machine's phase says; a refusal carries a line of text. */
  predicate Shows(w: BodyEncoding.ResponseWriter, bodyBefore: bytes, text: bytes, p: Phase)
    reads w
  {
    && (p.Responded? || p.Refused?)
    && w.status == StatusOf(p)
    && w.body == bodyBefore + if p.Responded? then p.body else text + [Base64.LF]
  }

  predicate Says(w: BodyEncoding.ResponseWriter, bodyBefore: bytes, text: bytes, status: nat)
    reads w
  {
    w.status == status && w.contentType == "text/plain; charset=utf-8" && w.body == bodyBefore + text + [Base64.LF]
  }

  /** After the CA's answer: what is written and answered. */
  ghost predicate Concluded(env: Env, store: FileStore.Store, fs: Files,
                            w: BodyEncoding.ResponseWriter, bodyBefore: bytes,
                            q: Incoming, csr: Request, answer: Answer, text: bytes, now: int, f: WriteFaults)
    requires q.peer.Some?
    reads store, w
  {
    match answer
    case BadSignature => Says(w, bodyBefore, text, 400) && store.files == fs
    case BackendError => Says(w, bodyBefore, text, 500) && store.files == fs
    case Issued(cert) =>
      && FileStore.Kept(store.root, fs, store.files, cert.serial)
      && if AllGoesWell(env, store.root, fs, q, cert, now, f) then
           && w.status == 200 && w.contentType == "application/pkcs7-mime; smime-type=certs-only"
           && Reply(cert).Some? && w.body == bodyBefore + Body(Reply(cert).value)
           && FilesAre(store.root, store.files, cert.serial, csr.raw, cert.raw, env.metaJson(MetaFor(q, now)).value)
         else Says(w, bodyBefore, text, 500)
  }

  // text is the text of the refusal, if it comes to one
  method IssueAndRespond(env: Env, store: FileStore.Store, w: BodyEncoding.ResponseWriter, q: Incoming, csr: Request,
                         answer: Answer, text: bytes, now: int, f: WriteFaults, ghost s: State, ghost r: nat)
    returns (ghost es: seq<Step>, ghost t: State)
    requires s.store.root == store.root && s.store.fs == store.files && ClearedAt(s, r, q, csr)
    modifies store, w
    ensures Fits(env, s, csr, answer) ==>
              Run(env, s, es, t) && r in t.reqs && t.store.fs == store.files
              && Shows(w, old(w.body), text, t.reqs[r].phase)
    ensures Concluded(env, store, old(store.files), w, old(w.body), q, csr, answer, text, now, f)
    ensures w.status == 200 || w.status == 400 || w.status == 500
    ensures w.status == 400 <==> answer.BadSignature?
    ensures w.status == 200 <==>
            && answer.Issued? && 0 < |answer.cert.raw| <= 0xffff_ffcd
            && FileStore.Succeeds(store.root, old(store.files), Csr, answer.cert.serial, f.csr)
            && FileStore.Succeeds(store.root, old(store.files), Cert, answer.cert.serial, f.cert)
            && FileStore.Succeeds(store.root, old(store.files), Meta, answer.cert.serial, f.meta)
            && env.metaJson(Metadata(q.peer.value.commonName, q.remoteAddr, now)).Some?
    ensures w.status == 200 ==>
              var fs, root, serial := store.files, store.root, answer.cert.serial;
              && Lookup(fs, PathOf(root, Final(Csr, serial))) == Some(csr.raw)
              && Lookup(fs, PathOf(root, Final(Cert, serial))) == Some(answer.cert.raw)
              && Lookup(fs, PathOf(root, Final(Meta, serial)))
                 == env.metaJson(Metadata(q.peer.value.commonName, q.remoteAddr, now))
  {
    hide PathOf, Run, Reply, Body, FileStore.Kept, FileStore.Succeeds, Fits, PersistWent;
    Regroup(w.body, text, [Base64.LF]);
    if !answer.Issued? {
      w.Error(text, if answer.BadSignature? then 400 else 500);
      es, t := RefusedRun(env, s, r, q, csr, answer.BadSignature?);
      return;
    }
    var cert := answer.cert;
    var meta := Metadata(q.peer.value.commonName, q.remoteAddr, now);
    EnrolmentProperties.ReplyExactly(cert);
    var ok;
    ghost var trail;
    ok, trail := Persist(store, cert, csr.raw, env.metaJson(meta), f);
    es, t := [], s;
    if Fits(env, s, csr, answer) {
      es, t := IssuedRun(env, s, r, q, csr, cert, now, trail, store.files, ok);
    }
    if !ok {
      w.Error(text, 500);
      return;
    }
    var der := Encode(cert);
    if der.None? {
      w.Error(text, 500);
      return;
    }
    BodyEncoding.WriteBase64Response(w, PKCS7_MIME, der.value);
    BodyIs(der.value);
  }

  lemma Regroup(a: bytes, b: bytes, c: bytes)
    ensures a + b + c == a + (b + c)
  {
  }

  lemma BodyIs(der: bytes)
    ensures Body(der) == BodyEncoding.Wrap(Base64.Encode(der))
  {
  }

  method Encode(cert: Certificate) returns (der: Option<bytes>)
    ensures der == Reply(cert)
  {
    hide Pkcs7.EncodeWire;
    der := Pkcs7.EncodeCertsOnly([Some(cert)]);
    assert seq(1, i requires 0 <= i < 1 && [Some(cert)][i].Some? => [Some(cert)][i].value.raw) == [cert.raw];
    assert [Some(cert)][0].Some?;
  }

  /** The request first, then the certificate, then its metadata. */
  method Persist(store: FileStore.Store, cert: Certificate, csrDer: bytes, metaJson: Option<bytes>, f: WriteFaults)
    returns (ok: bool, ghost trail: Trail)
    modifies store
    ensures FileStore.Kept(store.root, old(store.files), store.files, cert.serial)
    ensures ok <==> && FileStore.Succeeds(store.root, old(store.files), Csr, cert.serial, f.csr)
                    && FileStore.Succeeds(store.root, old(store.files), Cert, cert.serial, f.cert)
                    && FileStore.Succeeds(store.root, old(store.files), Meta, cert.serial, f.meta)
                    && metaJson.Some?
    ensures ok ==> FilesAre(store.root, store.files, cert.serial, csrDer, cert.raw, metaJson.value)
    ensures PersistWent(store.root, old(store.files), cert, csrDer, metaJson, trail, store.files, ok)
  {
    hide PathOf, CallRun, FileStore.Went;
    PathsApart(store.root);
    ok := store.PutCsr(cert.serial, csrDer, f.csr);
    trail := Trail(FileStore.Leg(store.trace, store.files, store.call), None, None);
    if !ok {
      return;
    }
    ghost var between := store.files;
    ghost var certLeg, metaLeg;
    var csrFile := Final(Csr, cert.serial);
    assert Temp(Cert, cert.serial, f.cert.drawn) != csrFile && Temp(Meta, cert.serial, f.meta.drawn) != csrFile;
    ok, certLeg, metaLeg := store.PutCertificate(cert.serial, cert.raw, metaJson, f.cert, f.meta);
    trail := trail.(cert := Some(certLeg), meta := metaLeg);
    assert Final(Cert, cert.serial) != csrFile && Final(Meta, cert.serial) != csrFile
           && Final(Cert, cert.serial) != Final(Meta, cert.serial);
  }

  /** The part before the CA is asked: authentication, the body, and for a renewal the identity. */
  method Admit(env: Env, w: BodyEncoding.ResponseWriter, q: Incoming, text: bytes, ghost s: State, ghost r: nat)
    returns (csr: Option<Request>, ghost es: seq<Step>, ghost t: State)
    requires r !in s.reqs
    modifies w
    ensures Run(env, s, es, t) && t.store == s.store && t.jobs == s.jobs && r in t.reqs
    ensures q.peer.None? ==> csr == None && Says(w, old(w.body), text, 401) && t.reqs[r].phase == Refused(401)
    ensures q.peer.Some? && (q.readFails || BodyRequestOf(env, q).None?) ==>
              csr == None && Says(w, old(w.body), text, 400) && t.reqs[r].phase == Refused(400)
    ensures q.peer.Some? && !q.readFails && BodyRequestOf(env, q).Some? ==>
              var peer, asked := q.peer.value, BodyRequestOf(env, q).value;
              if q.reenroll && (peer.commonName != asked.commonName
                                || Identity.SanString(peer.names) != Identity.SanString(asked.names))
              then csr == None && Says(w, old(w.body), text, 403) && t.reqs[r].phase == Refused(403)
              else csr == Some(asked) && ClearedAt(t, r, q, asked) && w.body == old(w.body)
  {
    hide Identity.SanString, BodyEncoding.BodyRequest, Run;
    es, t := EarlyRun(env, s, r, q);
    if q.peer.None? {
      w.Error(text, 401);
      return None, es, t;
    }
    csr := BodyEncoding.DecodeCsrBody(q.body, q.readFails, env.parseCsr);
    if csr.None? {
      w.Error(text, 400);
      return;
    }
    if q.reenroll {
      var same := Identity.IdentitiesMatch(q.peer.value, csr.value);
      if !same {
        w.Error(text, 403);
        csr := None;
      }
    }
  }

  method HandleEnroll(env: Env, store: FileStore.Store, w: BodyEncoding.ResponseWriter, q: Incoming,
                      ca: Request -> Answer, text: bytes, now: int, f: WriteFaults, ghost s: State, ghost r: nat)
    returns (ghost es: seq<Step>, ghost t: State)
    requires s.store.root == store.root && s.store.fs == store.files && r !in s.reqs
    modifies store, w
    // for any state of the machine over these files, the handler is a run of it
    ensures (q.peer.Some? && !q.readFails && BodyRequestOf(env, q).Some? ==>
               var peer, csr := q.peer.value, BodyRequestOf(env, q).value;
               (q.reenroll ==> peer.commonName == csr.commonName
                               && Identity.SanString(peer.names) == Identity.SanString(csr.names)) ==>
                 Fits(env, s, csr, ca(csr))) ==>
              Run(env, s, es, t) && r in t.reqs && t.store.fs == store.files
              && Shows(w, old(w.body), text, t.reqs[r].phase)
    ensures q.peer.None? ==> Says(w, old(w.body), text, 401) && store.files == old(store.files)
    ensures q.peer.Some? && (q.readFails || BodyRequestOf(env, q).None?) ==>
              Says(w, old(w.body), text, 400) && store.files == old(store.files)
    ensures q.peer.Some? && !q.readFails && BodyRequestOf(env, q).Some? ==>
              var peer, csr := q.peer.value, BodyRequestOf(env, q).value;
              if q.reenroll && (peer.commonName != csr.commonName
                                || Identity.SanString(peer.names) != Identity.SanString(csr.names))
              then Says(w, old(w.body), text, 403) && store.files == old(store.files)
              else Concluded(env, store, old(store.files), w, old(w.body), q, csr, ca(csr), text, now, f)
  {
    hide Concluded, Identity.SanString, BodyEncoding.BodyRequest, Fits, Run;
    Regroup(w.body, text, [Base64.LF]);
    var csr;
    csr, es, t := Admit(env, w, q, text, s, r);
    if csr.None? {
      return;
    }
    ghost var fs, u := IssueAndRespond(env, store, w, q, csr.value, ca(csr.value), text, now, f, t, r);
    if Fits(env, s, csr.value, ca(csr.value)) {
      FitsSame(env, s, t, csr.value, ca(csr.value));
      EnrolmentProperties.RunConcat(env, s, es, t, fs, u);
    }
    es, t := es + fs, u;
  }

  /** The same over the in-process CA: what is answered has the identity that was authenticated. */
  method HandleEnrollLocally(env: Env, lib: Library, store: FileStore.Store, w: BodyEncoding.ResponseWriter,
                             q: Incoming, random: bytes, randomFails: bool, skew: int, validity: int,
                             text: bytes, now: int, f: WriteFaults,
                             ghost s: State, ghost r: nat)
    returns (answer: Option<Answer>, ghost es: seq<Step>, ghost t: State)
    requires |random| == Serial.SERIAL_BYTES
    requires s.store.root == store.root && s.store.fs == store.files && r !in s.reqs
    modifies store, w
    ensures LocalBackend(env, lib) && !Reuses(s, answer) ==>
              Run(env, s, es, t) && r in t.reqs && t.store.fs == store.files
              && Shows(w, old(w.body), text, t.reqs[r].phase)
    ensures q.peer.None? ==> answer == None && Says(w, old(w.body), text, 401) && store.files == old(store.files)
    ensures q.peer.Some? && (q.readFails || BodyRequestOf(env, q).None?) ==>
              answer == None && Says(w, old(w.body), text, 400) && store.files == old(store.files)
    ensures q.peer.Some? && !q.readFails && BodyRequestOf(env, q).Some? ==>
              var peer, csr := q.peer.value, BodyRequestOf(env, q).value;
              if q.reenroll && (peer.commonName != csr.commonName
                                || Identity.SanString(peer.names) != Identity.SanString(csr.names))
              then answer == None && Says(w, old(w.body), text, 403) && store.files == old(store.files)
              else answer.Some? && Concluded(env, store, old(store.files), w, old(w.body), q, csr, answer.value,
                                             text, now, f)
    ensures Preserves(lib) && answer.Some? && answer.value.Issued? ==>
              q.peer.Some? && !q.readFails && BodyRequestOf(env, q).Some?
              && answer.value.cert.commonName == BodyRequestOf(env, q).value.commonName
              && answer.value.cert.names == BodyRequestOf(env, q).value.names
    ensures Preserves(lib) && answer.Some? && answer.value.Issued? && q.reenroll && q.peer.Some? ==>
              SameIdentity(q.peer.value, answer.value.cert)
  {
    hide Concluded, Fits, Run, Identity.SanString, BodyEncoding.BodyRequest, LocalBackend, IssuedBy, Preserves, Made;
    Regroup(w.body, text, [Base64.LF]);
    var csr;
    csr, es, t := Admit(env, w, q, text, s, r);
    if csr.None? {
      return None, es, t;
    }
    var issued := IssueCertificate(lib, csr.value, random, randomFails, skew, validity, now);
    ghost var fs, u := IssueAndRespond(env, store, w, q, csr.value, issued, text, now, f, t, r);
    if LocalBackend(env, lib) && !Reuses(s, Some(issued)) {
      LocalAnswerFits(env, lib, t, csr.value, issued);
      EnrolmentProperties.RunConcat(env, s, es, t, fs, u);
    }
    answer, es, t := Some(issued), es + fs, u;
  }

  /** The one thing randomness cannot promise. */
  predicate Reuses(s: State, answer: Option<Answer>) {
    answer.Some? && answer.value.Issued? && exists r :: r in s.jobs && s.jobs[r].cert.serial == answer.value.cert.serial
  }

  lemma FitsSame(env: Env, s: State, t: State, csr: Request, answer: Answer)
    requires Fits(env, s, csr, answer) && t.jobs == s.jobs
    ensures Fits(env, t, csr, answer)
  {
  }
}
