/** Enrolment over the openssl backend: there the distinctness of serials need not be assumed. */
module OpensslEnrolment {
  import opened X509
  import opened OpensslCa
  import opened Enrolment
  import EnrolmentProperties

  // A call of the backend goes by the number of its request.
  datatype Both = Both(requests: State, ca: Ca)

  datatype BothStep =
    | OfRequest(step: Step)
    | OfCa(caStep: CaStep)
    | TakeCertificate(r: nat, cert: Certificate, now: int)
    | BothDie

  /** What a request needs to take a certificate: it waits for one, and its run has succeeded. */
  predicate MayTake(env: Env, b: Both, r: nat, cert: Certificate) {
    && r in b.requests.reqs && b.requests.reqs[r].phase.Cleared?
    && env.issues(b.requests.reqs[r].phase.csr, cert)
    && r in b.ca.callers && b.ca.callers[r].Succeeded? && cert.serial == b.ca.callers[r].serial
  }

  predicate CanBoth(env: Env, b: Both, e: BothStep) {
    match e
    case OfRequest(step) => !step.Issue? && !step.Die? && CanStep(env, b.requests, step)
    case OfCa(step) => !step.CaDies? && CanDo(b.ca, step)
    case TakeCertificate(r, cert, _) => MayTake(env, b, r, cert)
    case BothDie => true
  }

  ghost predicate BothInv(b: Both) {
    && CaInv(b.ca)
    && (forall r :: r in b.requests.jobs ==> Handed(b, b.requests.jobs[r].cert.serial))
  }

  /** Issued, and no longer in the hands of any call. */
  predicate Handed(b: Both, serial: int) {
    && (exists n: nat :: n in b.ca.issued && n == serial)
    && (forall c :: c in b.ca.callers && b.ca.callers[c].Succeeded? ==> b.ca.callers[c].serial != serial)
  }

  lemma TakenIsFresh(env: Env, b: Both, r: nat, cert: Certificate, now: int)
    requires BothInv(b) && MayTake(env, b, r, cert)
    ensures NewSerial(b.requests, Issue(r, cert, now))
  {
    hide CaInv;
    forall q | q in b.requests.jobs ensures b.requests.jobs[q].cert.serial != cert.serial {
      assert Handed(b, b.requests.jobs[q].cert.serial);
    }
  }

  function NextBoth(env: Env, b: Both, e: BothStep): Both
    requires CanBoth(env, b, e)
  {
    match e
    case OfRequest(step) => b.(requests := Next(env, b.requests, step))
    case OfCa(step) => b.(ca := Do(b.ca, step))
    case TakeCertificate(r, cert, now) =>
      Both(Next(env, b.requests, Issue(r, cert, now)), b.ca.(callers := b.ca.callers - {r}))
    case BothDie => Both(Next(env, b.requests, Die), Do(b.ca, CaDies))
  }

  /** No step but taking a certificate makes a job. */
  lemma JobsOnlyByIssue(env: Env, s: State, e: Step)
    requires CanStep(env, s, e)
    ensures !e.Issue? ==> Next(env, s, e).jobs == s.jobs
    ensures e.Issue? ==> forall r :: r in Next(env, s, e).jobs ==>
              (r in s.jobs && Next(env, s, e).jobs[r] == s.jobs[r])
                  || (r == e.r && Next(env, s, e).jobs[r].cert == e.cert)
  {
    hide Verdict, AfterDecode, AfterMatch, AfterStored;
  }

  lemma IssuedStays(b: Both, e: CaStep, serial: int)
    requires CaInv(b.ca) && CanDo(b.ca, e) && Handed(b, serial)
    ensures Handed(b.(ca := Do(b.ca, e)), serial)
  {
    var t := Do(b.ca, e);
    var n: nat :| n in b.ca.issued && n == serial;
    assert n in t.issued;
    if e.Finish? {
      assert CallerOk(b.ca, e.c);
      assert serial < b.ca.callers[e.c].serial;
    }
    hide CaInv;
  }

  lemma TakeKeeps(env: Env, b: Both, e: BothStep)
    requires BothInv(b) && e.TakeCertificate? && CanBoth(env, b, e)
    ensures BothInv(NextBoth(env, b, e))
  {
    var t := NextBoth(env, b, e);
    TakeCaInv(b.ca, e.r);
    hide Next, CanStep;
    JobsOnlyByIssue(env, b.requests, Issue(e.r, e.cert, e.now));
    forall r | r in t.requests.jobs ensures Handed(t, t.requests.jobs[r].cert.serial) {
      var serial := t.requests.jobs[r].cert.serial;
      if r in b.requests.jobs && t.requests.jobs[r] == b.requests.jobs[r] {
        assert Handed(b, serial);
        var n: nat :| n in b.ca.issued && n == serial;
        assert n in t.ca.issued;
      } else {
        assert CallerOk(b.ca, e.r);
        assert b.ca.callers[e.r].serial in t.ca.issued;
      }
    }
  }

  lemma TakeCaInv(s: Ca, c: nat)
    requires CaInv(s) && c in s.callers && s.callers[c].Succeeded?
    ensures CaInv(s.(callers := s.callers - {c}))
  {
    hide Increasing, AllBelow;
    var t := s.(callers := s.callers - {c});
    assert CallerOk(s, c);
    forall d | d in t.callers ensures CallerOk(t, d) {
      assert CallerOk(s, d);
    }
  }

  lemma BothKeeps(env: Env, b: Both, e: BothStep)
    requires BothInv(b) && CanBoth(env, b, e)
    ensures e.TakeCertificate? ==> NewSerial(b.requests, Issue(e.r, e.cert, e.now))
    ensures BothInv(NextBoth(env, b, e))
  {
    match e {
      case OfRequest(step) =>
        hide CaInv, Next, CanStep;
        JobsOnlyByIssue(env, b.requests, step);
        var t := NextBoth(env, b, e);
        forall r | r in t.requests.jobs ensures Handed(t, t.requests.jobs[r].cert.serial) {
          assert Handed(b, b.requests.jobs[r].cert.serial);
        }
      case OfCa(step) =>
        DoKeeps(b.ca, step);
        hide CaInv, CanDo, Do, Handed;
        forall r | r in b.requests.jobs ensures Handed(NextBoth(env, b, e), b.requests.jobs[r].cert.serial) {
          IssuedStays(b, step, b.requests.jobs[r].cert.serial);
        }
      case TakeCertificate(r, cert, now) =>
        TakenIsFresh(env, b, r, cert, now);
        TakeKeeps(env, b, e);
      case BothDie =>
        DoKeeps(b.ca, CaDies);
        hide CaInv, Next, CanStep;
        JobsOnlyByIssue(env, b.requests, Die);
        forall r | r in b.requests.jobs ensures Handed(NextBoth(env, b, e), b.requests.jobs[r].cert.serial) {
          assert Handed(b, b.requests.jobs[r].cert.serial);
        }
    }
  }

  /** A run in which certificates come from the backend, with no condition on their serials. */
  ghost predicate BothRun(env: Env, b: Both, es: seq<BothStep>, c: Both)
    decreases |es|
  {
    if es == [] then b == c
    else
      CanBoth(env, b, es[0]) && BothRun(env, NextBoth(env, b, es[0]), es[1..], c)
  }

  function RequestSteps(e: BothStep): seq<Step> {
    match e
    case OfRequest(step) => [step]
    case OfCa(_) => []
    case TakeCertificate(r, cert, now) => [Issue(r, cert, now)]
    case BothDie => [Die]
  }

  /** Every such run is, for the requests, a run with distinct serials. */
  lemma {:induction false} RunsAreEnrolmentRuns(env: Env, b: Both, es: seq<BothStep>, c: Both) returns (fs: seq<Step>)
    requires BothInv(b) && BothRun(env, b, es, c)
    ensures Run(env, b.requests, fs, c.requests) && BothInv(c)
    decreases |es|
  {
    if es == [] {
      fs := [];
    } else {
      var e := es[0];
      BothKeeps(env, b, e);
      var d := NextBoth(env, b, e);
      var rest := RunsAreEnrolmentRuns(env, d, es[1..], c);
      fs := RequestSteps(e) + rest;
      OneMore(env, b, e, d);
      EnrolmentProperties.RunConcat(env, b.requests, RequestSteps(e), d.requests, rest, c.requests);
    }
  }

  lemma OneMore(env: Env, b: Both, e: BothStep, d: Both)
    requires CanBoth(env, b, e) && (e.TakeCertificate? ==> NewSerial(b.requests, Issue(e.r, e.cert, e.now)))
             && d == NextBoth(env, b, e)
    ensures Run(env, b.requests, RequestSteps(e), d.requests)
  {
    hide Next, Do, CanDo;
    var es := RequestSteps(e);
    if es != [] {
      assert es[1..] == [];
      assert CanStep(env, b.requests, es[0]);
      assert Run(env, Next(env, b.requests, es[0]), [], d.requests);
    }
  }

  /** So, over this backend, what has been answered is stored for good without any assumption on serials. */
  lemma StoredForGood(env: Env, b: Both, es: seq<BothStep>, c: Both, fs: seq<BothStep>, d: Both, r: nat)
    requires AtStart(b.requests) && JustStarted(b.ca) && BothRun(env, b, es, c) && BothRun(env, c, fs, d)
    requires r in c.requests.reqs && c.requests.reqs[r].phase.Responded?
    ensures r in c.requests.jobs && EnrolmentProperties.FilesHold(env, d.requests, c.requests.jobs[r])
    ensures r in d.requests.reqs && d.requests.reqs[r] == c.requests.reqs[r]
  {
    FreshInv(b.ca);
    hide BothRun, CaInv, Run, EnrolmentProperties.FilesHold;
    var xs := RunsAreEnrolmentRuns(env, b, es, c);
    var ys := RunsAreEnrolmentRuns(env, c, fs, d);
    EnrolmentProperties.StoredForGood(env, b.requests, xs, c.requests, ys, d.requests, r);
  }
}
