/** Chains of re-enrolments: section 4.2.2 of RFC 7030 lets a client renew only its own identity. */
module Reenrolment {
  import opened X509
  import opened Identity
  import opened Enrolment
  import opened LocalCa
  import opened Sequential
  import EnrolmentProperties

  /** Answered requests, each but the first a renewal authenticated by the certificate issued before it. */
  predicate Chain(s: State, rs: seq<nat>) {
    && (forall i :: 0 <= i < |rs| ==> EnrolmentProperties.Answered(s, rs[i]))
    && (forall i :: 0 < i < |rs| ==> s.reqs[rs[i]].incoming.reenroll && s.jobs[rs[i]].peer == s.jobs[rs[i - 1]].cert)
  }

  predicate SameIdentity(a: Certificate, b: Certificate) {
    a.commonName == b.commonName && SanString(a.names) == SanString(b.names)
  }

  /** The in-process CA, over a library whose creation and parsing keep the template's fields. */
  ghost predicate KeepingCa(env: Env, lib: Library) {
    LocalBackend(env, lib) && Preserves(lib)
  }

  lemma CaCopies(env: Env, lib: Library, csr: Request, cert: Certificate)
    requires KeepingCa(env, lib) && env.issues(csr, cert)
    ensures Copies(csr, cert)
  {
    hide IssuedBy, Preserves;
    IssuedCopies(lib, csr, cert);
  }

  lemma RenewalKeeps(env: Env, lib: Library, s0: State, es: seq<Step>, s: State, r: nat)
    requires AtStart(s0) && Run(env, s0, es, s) && KeepingCa(env, lib)
    requires EnrolmentProperties.Answered(s, r) && s.reqs[r].incoming.reenroll
    ensures SameIdentity(s.jobs[r].peer, s.jobs[r].cert)
  {
    hide SanString, Run, AtStart, KeepingCa;
    EnrolmentProperties.ResponsesAreEarned(env, s0, es, s, r);
    CaCopies(env, lib, s.jobs[r].csr, s.jobs[r].cert);
  }

  /** However long the chain, the name and the alternative names are those of its first certificate. */
  lemma {:induction false} ChainKeepsIdentity(env: Env, lib: Library, s0: State, es: seq<Step>, s: State, rs: seq<nat>)
    requires AtStart(s0) && Run(env, s0, es, s) && LocalBackend(env, lib) && Preserves(lib)
    requires rs != [] && Chain(s, rs)
    ensures SameIdentity(s.jobs[rs[0]].cert, s.jobs[rs[|rs| - 1]].cert)
    decreases |rs|
  {
    hide SanString, Run, AtStart, LocalBackend, Preserves;
    if |rs| > 1 {
      var front := rs[..|rs| - 1];
      assert Chain(s, front);
      ChainKeepsIdentity(env, lib, s0, es, s, front);
      RenewalKeeps(env, lib, s0, es, s, rs[|rs| - 1]);
    }
  }

  /** Read off the names themselves, when no name contains a newline. */
  lemma ChainKeepsFamilies(env: Env, lib: Library, s0: State, es: seq<Step>, s: State, rs: seq<nat>)
    requires AtStart(s0) && Run(env, s0, es, s) && LocalBackend(env, lib) && Preserves(lib)
    requires rs != [] && Chain(s, rs)
    requires NewlineFree(s.jobs[rs[0]].cert.names) && NewlineFree(s.jobs[rs[|rs| - 1]].cert.names)
    ensures SameFamilies(s.jobs[rs[0]].cert.names, s.jobs[rs[|rs| - 1]].cert.names)
  {
    hide SanString, Run, AtStart, LocalBackend, Preserves, NewlineFree, SameFamilies;
    ChainKeepsIdentity(env, lib, s0, es, s, rs);
    SanStringExact(s.jobs[rs[0]].cert.names, s.jobs[rs[|rs| - 1]].cert.names);
  }
}
