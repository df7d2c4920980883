/**
 The openssl backend: calls of IssueCertificate that take a mutex around one run of the CA command,
 which reads the serial file, records the certificate and writes the next serial back.  A run may be
 killed or fail anywhere; nobody else writes the serial file.
 */
module OpensslCa {
  import opened Common

  datatype Pc =
    | Waiting                // before the mutex
    | Started                // the command runs
    | Read(serial: nat)
    | Recorded(serial: nat)
    | Bumped(serial: nat)
    | Succeeded(serial: nat) // mutex released, certificate in hand
    | Failed

  // issued: the serials of successful runs, oldest first; recorded: the lines of the index
  datatype Ca = Ca(next: nat, holder: Option<nat>, callers: map<nat, Pc>, recorded: seq<nat>, issued: seq<nat>)

  datatype CaStep =
    | Enter(c: nat)
    | Lock(c: nat)
    | ReadSerial(c: nat)
    | Record(c: nat)
    | Bump(c: nat)
    | Finish(c: nat)
    | RunFails(c: nat)
    | CallFails(c: nat)   // before the mutex, or on reading the certificate back
    | CaDies

  predicate Running(p: Pc) {
    p.Started? || p.Read? || p.Recorded? || p.Bumped?
  }

  predicate CanDo(s: Ca, e: CaStep) {
    if e.CaDies? then true
    else if e.Enter? then e.c !in s.callers
    else
      e.c in s.callers &&
      var p := s.callers[e.c];
      match e
      case Lock(_) => p.Waiting? && s.holder == None
      case ReadSerial(_) => p.Started?
      case Record(_) => p.Read?
      case Bump(_) => p.Recorded?
      case Finish(_) => p.Bumped?
      case RunFails(_) => Running(p)
      case CallFails(_) => p.Waiting? || p.Succeeded?
  }

  function At(s: Ca, c: nat, p: Pc): Ca {
    s.(callers := s.callers[c := p])
  }

  function Do(s: Ca, e: CaStep): Ca
    requires CanDo(s, e)
  {
    match e
    case Enter(c) => At(s, c, Waiting)
    case Lock(c) => At(s, c, Started).(holder := Some(c))
    case ReadSerial(c) => At(s, c, Read(s.next))
    case Record(c) => At(s, c, Recorded(s.callers[c].serial)).(recorded := s.recorded + [s.callers[c].serial])
    case Bump(c) => At(s, c, Bumped(s.callers[c].serial)).(next := s.callers[c].serial + 1)
    case Finish(c) =>
      At(s, c, Succeeded(s.callers[c].serial)).(holder := None, issued := s.issued + [s.callers[c].serial])
    case RunFails(c) => At(s, c, Failed).(holder := None)
    case CallFails(c) => At(s, c, Failed)
    case CaDies => s.(callers := map[], holder := None)
  }

  ghost predicate Does(s: Ca, es: seq<CaStep>, t: Ca)
    decreases |es|
  {
    if es == [] then s == t else CanDo(s, es[0]) && Does(Do(s, es[0]), es[1..], t)
  }

  predicate JustStarted(s: Ca) {
    s.holder == None && s.callers == map[] && s.issued == [] && s.recorded == []
  }

  predicate Increasing(xs: seq<nat>) {
    forall i, j :: 0 <= i < j < |xs| ==> xs[i] < xs[j]
  }

  predicate AllBelow(xs: seq<nat>, n: nat) {
    forall i :: 0 <= i < |xs| ==> xs[i] < n
  }

  predicate CallerOk(s: Ca, c: nat)
    requires c in s.callers
  {
    var p := s.callers[c];
    && (Running(p) <==> s.holder == Some(c))
    && (p.Read? || p.Recorded? ==> p.serial == s.next)
    && (p.Bumped? ==> p.serial + 1 == s.next && AllBelow(s.issued, p.serial))
    && (p.Recorded? || p.Bumped? ==> p.serial in s.recorded)
    && (p.Succeeded? ==> p.serial in s.issued)
  }

  ghost predicate CaInv(s: Ca) {
    && Increasing(s.issued) && AllBelow(s.issued, s.next)
    && (forall n :: n in s.issued ==> n in s.recorded)
    && (forall c :: c in s.callers ==> CallerOk(s, c))
    && (s.holder.Some? ==> s.holder.value in s.callers)
    && (forall b, c ::
         b in s.callers && c in s.callers && b != c && s.callers[b].Succeeded? ==> s.callers[b] != s.callers[c])
  }

  lemma DoKeeps(s: Ca, e: CaStep)
    requires CaInv(s) && CanDo(s, e)
    ensures CaInv(Do(s, e))
  {
    if e.Finish? {
      FinishKeeps(s, e.c);
    } else if e.Record? || e.Bump? {
      RecordKeeps(s, e);
    } else {
      hide Increasing, AllBelow;
    }
  }

  lemma RecordKeeps(s: Ca, e: CaStep)
    requires CaInv(s) && CanDo(s, e) && (e.Record? || e.Bump?)
    ensures CaInv(Do(s, e))
  {
    hide Increasing;
  }

  lemma FinishKeeps(s: Ca, c: nat)
    requires CaInv(s) && CanDo(s, Finish(c))
    ensures CaInv(Do(s, Finish(c)))
  {
    var t, n := Do(s, Finish(c)), s.callers[c].serial;
    assert CallerOk(s, c);
    assert forall m :: m in t.issued <==> m in s.issued || m == n;
    assert forall m :: m in s.issued ==> m < n;
    assert CallerOk(t, c) by {
      assert t.issued[|s.issued|] == n;
    }
    forall b | b in t.callers && b != c ensures CallerOk(t, b) {
      assert CallerOk(s, b);
    }
  }

  lemma {:induction false} DoesKeeps(s: Ca, es: seq<CaStep>, t: Ca)
    requires CaInv(s) && Does(s, es, t)
    ensures CaInv(t)
    decreases |es|
  {
    hide CaInv, CanDo, Do;
    if es != [] {
      DoKeeps(s, es[0]);
      DoesKeeps(Do(s, es[0]), es[1..], t);
    }
  }

  lemma FreshInv(s: Ca)
    requires JustStarted(s)
    ensures CaInv(s)
  {
  }

  /** Never two runs at once. */
  lemma OneRunAtATime(s: Ca, es: seq<CaStep>, t: Ca, b: nat, c: nat)
    requires JustStarted(s) && Does(s, es, t)
    requires b in t.callers && c in t.callers && Running(t.callers[b]) && Running(t.callers[c])
    ensures b == c
  {
    hide Running, Increasing, AllBelow;
    FreshInv(s);
    DoesKeeps(s, es, t);
    assert CallerOk(t, b) && CallerOk(t, c);
  }

  /** Successful runs issue strictly increasing serials, each recorded, so none twice. */
  lemma SerialsIncrease(s: Ca, es: seq<CaStep>, t: Ca)
    requires JustStarted(s) && Does(s, es, t)
    ensures Increasing(t.issued) && forall n :: n in t.issued ==> n in t.recorded && n < t.next
  {
    DoesKeeps(s, es, t);
  }

  /** Every serial from the first on that the file has gone past. */
  predicate AllRecorded(s: Ca, first: nat) {
    first <= s.next && forall n: nat :: first <= n < s.next ==> n in s.recorded
  }

  lemma {:induction false} RecordedKept(s: Ca, es: seq<CaStep>, t: Ca, first: nat)
    requires CaInv(s) && Does(s, es, t) && AllRecorded(s, first)
    ensures AllRecorded(t, first)
    decreases |es|
  {
    hide CaInv, CanDo, Do, AllRecorded;
    if es != [] {
      DoKeeps(s, es[0]);
      RecordedStep(s, es[0], first);
      RecordedKept(Do(s, es[0]), es[1..], t, first);
    }
  }

  lemma RecordedStep(s: Ca, e: CaStep, first: nat)
    requires CaInv(s) && CanDo(s, e) && AllRecorded(s, first)
    ensures AllRecorded(Do(s, e), first)
  {
    hide Increasing, AllBelow;
    if e.Bump? {
      assert CallerOk(s, e.c);
    }
  }

  /** The serial file never passes over a serial: whatever fails or dies, each it has gone past is in the index. */
  lemma NoSerialSkipped(s: Ca, es: seq<CaStep>, t: Ca)
    requires JustStarted(s) && Does(s, es, t)
    ensures s.next <= t.next && forall n: nat :: s.next <= n < t.next ==> n in t.recorded
  {
    FreshInv(s);
    RecordedKept(s, es, t, s.next);
  }

  /** Two calls in hand of certificates never hold the same serial. */
  lemma CertificatesDiffer(s: Ca, es: seq<CaStep>, t: Ca, b: nat, c: nat)
    requires JustStarted(s) && Does(s, es, t) && b in t.callers && c in t.callers && b != c
    requires t.callers[b].Succeeded? && t.callers[c].Succeeded?
    ensures t.callers[b].serial != t.callers[c].serial
  {
    DoesKeeps(s, es, t);
  }
}
