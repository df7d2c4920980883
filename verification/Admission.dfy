/** Which requests come to the CA: each that may, once it is over, and no other. */
module Admission {
  import opened Common
  import opened AtomicWrite
  import opened StoreMachine
  import opened Enrolment
  import opened EnrolmentProperties
  import BodyEncoding
  import EnrolmentProgress
  import Identity

  /** The step in which the CA is asked, whatever it answers. */
  predicate AsksCa(e: Step, r: nat) {
    (e.Issue? || e.IssueFails?) && e.r == r
  }

  predicate Asked(es: seq<Step>, r: nat) {
    exists i :: 0 <= i < |es| && AsksCa(es[i], r)
  }

  predicate NotPastCa(s: State, r: nat) {
    r !in s.reqs || Early(s.reqs[r].phase) || s.reqs[r].phase.Dropped?
  }

  lemma {:induction false} IncomingKept(env: Env, s: State, es: seq<Step>, t: State, r: nat)
    requires Run(env, s, es, t) && r in s.reqs
    ensures r in t.reqs && t.reqs[r].incoming == s.reqs[r].incoming
    decreases |es|
  {
    hide CanStep, NewSerial, Next;
    if es != [] {
      RefusalStays(env, s, es[0], r);
      IncomingKept(env, Next(env, s, es[0]), es[1..], t, r);
    }
  }

  /** No step but asking the CA takes a request without a verdict past it. */
  lemma OnlyAskingPasses(env: Env, s: State, e: Step, r: nat)
    requires CanStep(env, s, e) && SlicesOk(env, s) && NotPastCa(s, r) && !AsksCa(e, r)
    requires var t := Next(env, s, e); r in t.reqs ==> Verdict(env, t.reqs[r].incoming) == None
    ensures NotPastCa(Next(env, s, e), r)
  {
    hide BodyEncoding.BodyRequest, Identity.Matches, Enabled, NextFiles, Reply, Body, JobOk;
    if r in s.reqs {
      assert SliceOk(env, SliceOf(s, r));
    }
  }

  lemma {:induction false} PastOnlyByAsking(env: Env, init: Files, s: State, es: seq<Step>, t: State, r: nat)
    requires EInv(env, init, s) && Run(env, s, es, t) && NotPastCa(s, r)
    requires r in t.reqs && Verdict(env, t.reqs[r].incoming) == None
    ensures NotPastCa(t, r) || Asked(es, r)
    decreases |es|
  {
    hide CanStep, NewSerial, Next, Verdict, Inv, JobsDistinct, CallsBelong, SlicesOk, NotPastCa, AsksCa;
    if es != [] {
      var u := Next(env, s, es[0]);
      if !AsksCa(es[0], r) {
        if r in u.reqs {
          IncomingKept(env, u, es[1..], t, r);
        }
        OnlyAskingPasses(env, s, es[0], r);
        Enrolment.StepKeeps(env, init, s, es[0]);
        PastOnlyByAsking(env, init, u, es[1..], t, r);
        if Asked(es[1..], r) {
          var i :| 0 <= i < |es[1..]| && AsksCa(es[1..][i], r);
          assert AsksCa(es[i + 1], r);
        }
      }
    }
  }

  lemma AskedIsCleared(env: Env, s: State, e: Step, r: nat)
    requires CanStep(env, s, e) && SlicesOk(env, s) && AsksCa(e, r)
    ensures r in s.reqs && Verdict(env, s.reqs[r].incoming) == None
  {
    hide Verdict, JobOk, Reply, Body;
    assert SliceOk(env, SliceOf(s, r));
  }

  lemma {:induction false} AskedOnlyCleared(env: Env, init: Files, s: State, es: seq<Step>, t: State, r: nat)
    requires EInv(env, init, s) && Run(env, s, es, t) && Asked(es, r)
    ensures r in t.reqs && Verdict(env, t.reqs[r].incoming) == None
    decreases |es|
  {
    hide CanStep, NewSerial, Next, Verdict, Inv, JobsDistinct, CallsBelong, SlicesOk, AsksCa;
    var u := Next(env, s, es[0]);
    if AsksCa(es[0], r) {
      AskedIsCleared(env, s, es[0], r);
      IncomingKept(env, s, es, t, r);
    } else {
      var i :| 0 <= i < |es| && AsksCa(es[i], r);
      assert es[i] == es[1..][i - 1];
      Enrolment.StepKeeps(env, init, s, es[0]);
      AskedOnlyCleared(env, init, u, es[1..], t, r);
    }
  }

  /**
   The CA is asked only about what has a client certificate and a readable request, of the same name if it is a
   renewal; and about each of these, once it is written, answered or refused.
   */
  lemma CaAskedExactly(env: Env, s0: State, es: seq<Step>, s: State, r: nat)
    requires AtStart(s0) && Run(env, s0, es, s) && r in s.reqs && !s.reqs[r].phase.Dropped?
    requires !s.reqs[r].phase.Arrived? && !s.reqs[r].phase.Authenticated?
    requires !s.reqs[r].phase.Decoded? && !s.reqs[r].phase.Cleared?
    ensures var q, csr := s.reqs[r].incoming, Received(env, s.reqs[r].incoming);
            Asked(es, r) <==>
            q.peer.Some? && csr.Some?
            && (q.reenroll ==>
                  q.peer.value.commonName == csr.value.commonName
                  && Identity.SanString(q.peer.value.names) == Identity.SanString(csr.value.names))
  {
    hide AtStart, Verdict, EInv, Run, Asked, Received, Identity.SanString;
    BegunInv(env, s0);
    VerdictIs(env, s.reqs[r].incoming);
    NobodyThere(s0, r);
    if Asked(es, r) {
      AskedOnlyCleared(env, s0.store.fs, s0, es, s, r);
    }
    if Verdict(env, s.reqs[r].incoming) == None {
      PastOnlyByAsking(env, s0.store.fs, s0, es, s, r);
    }
  }

  lemma NobodyThere(s: State, r: nat)
    requires AtStart(s)
    ensures NotPastCa(s, r)
  {
  }

  /** A first enrolment with a client certificate and a readable request is asked about, whatever names it has. */
  lemma FirstEnrolmentAsked(env: Env, s0: State, es: seq<Step>, s: State, r: nat)
    requires AtStart(s0) && Run(env, s0, es, s) && r in s.reqs && !s.reqs[r].phase.Dropped?
    requires !s.reqs[r].incoming.reenroll && s.reqs[r].incoming.peer.Some? && !s.reqs[r].incoming.readFails
    requires BodyEncoding.BodyRequest(s.reqs[r].incoming.body, env.parseCsr).Some?
    ensures Early(s.reqs[r].phase) || Asked(es, r)
    ensures s.reqs[r].phase.Refused? ==> s.reqs[r].phase.status == 400 || s.reqs[r].phase.status == 500
  {
    hide AtStart, Run, Asked, BodyEncoding.BodyRequest, Identity.SanString;
    if !Early(s.reqs[r].phase) {
      CaAskedExactly(env, s0, es, s, r);
    }
    if s.reqs[r].phase.Refused? {
      RefusalsAreExact(env, s0, es, s, r);
    }
  }

  // -- And can always come there -------------------------------------------------------------

  lemma OnwardToCa(env: Env, s: State, r: nat) returns (e: Step)
    requires r in s.reqs && Early(s.reqs[r].phase) && !s.reqs[r].phase.Cleared?
    requires SlicesOk(env, s) && Verdict(env, s.reqs[r].incoming) == None
    ensures CanStep(env, s, e) && NewSerial(s, e) && !e.Arrive? && !e.Die? && e.r == r && !AsksCa(e, r)
    ensures var t := Next(env, s, e);
            && r in t.reqs && Early(t.reqs[r].phase)
            && EnrolmentProgress.Rank(t, r) < EnrolmentProgress.Rank(s, r)
  {
    hide BodyEncoding.BodyRequest, Identity.Matches, Reply, Body, JobOk;
    assert SliceOk(env, SliceOf(s, r));
    e := match s.reqs[r].phase
         case Arrived => Authenticate(r)
         case Authenticated => Decode(r)
         case _ => Match(r);
  }

  lemma {:induction false} ReachesFrom(env: Env, init: Files, s: State, r: nat) returns (es: seq<Step>, t: State)
    requires EInv(env, init, s) && r in s.reqs && Early(s.reqs[r].phase)
    requires Verdict(env, s.reqs[r].incoming) == None
    ensures Run(env, s, es, t) && EnrolmentProgress.OwnSteps(es, r) && !Asked(es, r)
    ensures r in t.reqs && t.reqs[r].incoming == s.reqs[r].incoming && t.reqs[r].phase.Cleared?
    ensures EInv(env, init, t)
    decreases EnrolmentProgress.Rank(s, r)
  {
    hide CanStep, NewSerial, Next, Inv, JobsDistinct, CallsBelong, SlicesOk, Verdict, EnrolmentProgress.Rank, AsksCa;
    if s.reqs[r].phase.Cleared? {
      es, t := [], s;
    } else {
      var e := OnwardToCa(env, s, r);
      RefusalStays(env, s, e, r);
      Enrolment.StepKeeps(env, init, s, e);
      var rest;
      rest, t := ReachesFrom(env, init, Next(env, s, e), r);
      es := [e] + rest;
      assert forall i :: 0 < i < |es| ==> es[i] == rest[i - 1];
    }
  }

  lemma ClearedRequest(env: Env, s: State, r: nat)
    requires SlicesOk(env, s) && r in s.reqs && s.reqs[r].phase.Cleared?
    ensures Received(env, s.reqs[r].incoming) == Some(s.reqs[r].phase.csr)
  {
    hide BodyEncoding.BodyRequest, Verdict, JobOk, Reply, Body;
    assert SliceOk(env, SliceOf(s, r));
  }

  /** From every reachable state what may be asked about can go on to where the CA is asked, with its own request. */
  lemma CanReachCa(env: Env, s0: State, es: seq<Step>, s: State, r: nat) returns (more: seq<Step>, t: State)
    requires AtStart(s0) && Run(env, s0, es, s) && r in s.reqs && Early(s.reqs[r].phase)
    requires s.reqs[r].incoming.peer.Some? && Received(env, s.reqs[r].incoming).Some?
    requires s.reqs[r].incoming.reenroll ==>
               var peer, csr := s.reqs[r].incoming.peer.value, Received(env, s.reqs[r].incoming).value;
               peer.commonName == csr.commonName && Identity.SanString(peer.names) == Identity.SanString(csr.names)
    ensures Run(env, s, more, t) && EnrolmentProgress.OwnSteps(more, r) && !Asked(more, r)
    ensures r in t.reqs && t.reqs[r].phase == Cleared(Received(env, s.reqs[r].incoming).value)
  {
    hide AtStart, Run, Verdict, Inv, JobsDistinct, CallsBelong, SlicesOk, Asked, Received, Identity.SanString, Early;
    BegunInv(env, s0);
    EnrolmentProperties.RunKeeps(env, s0.store.fs, s0, es, s);
    VerdictIs(env, s.reqs[r].incoming);
    more, t := ReachesFrom(env, s0.store.fs, s, r);
    ClearedRequest(env, t, r);
  }
}
