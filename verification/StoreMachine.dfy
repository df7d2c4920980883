/**
 Any number of writeFileAtomic calls interleaved step by step over one directory, any step failing,
 the process dying at any point and starting again.
 */
module StoreMachine {
  import opened Common
  import opened Paths
  import opened AtomicWrite

  datatype CallId = CallId(owner: nat, index: nat)

  // created: every temporary ever created in the run; renames: the calls that renamed, in order
  datatype Store = Store(root: string, fs: Files, calls: map<CallId, Call>, created: set<Place>, renames: seq<CallId>)

  datatype Event =
    | Begin(id: CallId, kind: Kind, serial: int, data: bytes)
    | Act(id: CallId, action: Action)
    | Crash

  predicate CanHappen(s: Store, e: Event) {
    match e
    case Begin(id, _, _, _) => id !in s.calls
    case Act(id, a) => id in s.calls && Enabled(s.root, s.fs, s.calls[id], a)
    case Crash => true
  }

  function Dead(s: Stage): Stage {
    match s
    case Done => Done
    case Failed(left) => Failed(left)
    case Lost(left) => Lost(left)
    case Start => Lost(None)
    case Renamed(_) => Lost(None)
    case _ => Lost(Some(s.suffix))
  }

  function Happen(s: Store, e: Event): Store
    requires CanHappen(s, e)
  {
    match e
    case Begin(id, kind, serial, data) => s.(calls := s.calls[id := Call(kind, serial, data, Start)])
    case Act(id, a) =>
      var c := s.calls[id];
      var d := c.(stage := NextStage(s.root, s.fs, c, a));
      s.(fs := NextFiles(s.root, s.fs, c, a), calls := s.calls[id := d],
         created := if a.Create? then s.created + {Temp(c.kind, c.serial, a.suffix)} else s.created,
         renames := if a.Rename? then s.renames + [id] else s.renames)
    case Crash =>
      s.(calls := map id | id in s.calls :: s.calls[id].(stage := Dead(s.calls[id].stage)))
  }

  /** The random part of a temporary's name has not been drawn before for the same file. */
  predicate Fresh(s: Store, e: Event) {
    e.Act? && e.action.Create? && e.id in s.calls ==>
      Temp(s.calls[e.id].kind, s.calls[e.id].serial, e.action.suffix) !in s.created
  }

  ghost predicate Steps(s: Store, es: seq<Event>, t: Store)
    decreases |es|
  {
    if es == [] then s == t
    else CanHappen(s, es[0]) && Fresh(s, es[0]) && Steps(Happen(s, es[0]), es[1..], t)
  }

  predicate Initial(s: Store) {
    s.calls == map[] && s.created == {} && s.renames == []
  }

  // -- Invariant --------------------------------------------------------------------

  predicate SameTarget(c: Call, d: Call) {
    c.kind == d.kind && c.serial == d.serial
  }

  predicate MayHaveCreated(s: Store, id: CallId, t: Place) {
    id in s.calls && !s.calls[id].stage.Start? && s.calls[id].kind == t.kind && s.calls[id].serial == t.serial
  }

  ghost predicate Owned(s: Store) {
    && (forall id :: id in s.calls && Mention(s.calls[id]).Some? ==> Mention(s.calls[id]).value in s.created)
    && (forall t :: t in s.created ==> t.Temp? && exists id: CallId :: MayHaveCreated(s, id, t))
  }

  predicate Exclusive(s: Store) {
    forall i, j :: i in s.calls && j in s.calls && i != j && Mention(s.calls[i]).Some? ==>
      Mention(s.calls[i]) != Mention(s.calls[j])
  }

  predicate Contents(s: Store) {
    forall id :: id in s.calls ==> Content(s.root, s.fs, s.calls[id])
  }

  /** The file at p is one call's data, whole. */
  predicate Whole(s: Store, id: CallId, p: string) {
    id in s.calls && p == FinalOf(s.root, s.calls[id]) && Lookup(s.fs, p) == Some(s.calls[id].data)
  }

  ghost predicate FromSomeCall(s: Store, p: string) {
    exists id: CallId :: Whole(s, id, p)
  }

  ghost predicate IsCreated(s: Store, p: string) {
    exists t :: t in s.created && p == PathOf(s.root, t)
  }

  /** Every file is as it was, or whole, or a temporary. */
  ghost predicate Finals(init: Files, s: Store) {
    && (forall p: string :: Lookup(s.fs, p) == Lookup(init, p) || FromSomeCall(s, p) || IsCreated(s, p))
    && (forall id :: id in s.calls && Landed(s.calls[id].stage) ==> FromSomeCall(s, FinalOf(s.root, s.calls[id])))
  }

  ghost predicate HeldBySome(s: Store, t: Place) {
    exists id :: id in s.calls && Mention(s.calls[id]) == Some(t)
  }

  /** A temporary that is there is somebody's. */
  ghost predicate NoOrphans(s: Store) {
    forall t :: t in s.created && Lookup(s.fs, PathOf(s.root, t)).Some? ==> HeldBySome(s, t)
  }

  predicate Targets(c: Call, place: Place) {
    place == Final(c.kind, c.serial)
  }

  /** The last call to have renamed its file to this place. */
  function LastRename(calls: map<CallId, Call>, renames: seq<CallId>, place: Place): (last: Option<CallId>)
    ensures last.Some? ==> last.value in calls && last.value in renames && Targets(calls[last.value], place)
  {
    if renames == [] then None
    else
      var id := renames[|renames| - 1];
      if id in calls && Targets(calls[id], place) then Some(id) else LastRename(calls, renames[..|renames| - 1], place)
  }

  /** What a final name holds: the last data renamed there, or what was there at the start. */
  function Expected(init: Files, s: Store, place: Place): Option<bytes> {
    match LastRename(s.calls, s.renames, place)
    case None => Lookup(init, PathOf(s.root, place))
    case Some(id) => Some(s.calls[id].data)
  }

  /** A call is listed when it has renamed, whatever became of it. */
  predicate Renamers(s: Store) {
    && (forall id :: id in s.renames ==> id in s.calls && (Landed(s.calls[id].stage) || s.calls[id].stage.Lost?))
    && (forall id :: id in s.calls && Landed(s.calls[id].stage) ==> id in s.renames)
  }

  ghost predicate Latest(init: Files, s: Store) {
    && Renamers(s)
    && forall place: Place :: place.Final? ==> Lookup(s.fs, PathOf(s.root, place)) == Expected(init, s, place)
  }

  ghost predicate Inv(init: Files, s: Store) {
    Owned(s) && Exclusive(s) && Contents(s) && Finals(init, s) && NoOrphans(s) && Latest(init, s)
  }

  // -- Steps ---------------------------------------------------------------------------

  /** A call that has done nothing yet was added. */
  ghost predicate Begun(s: Store, t: Store, id: CallId) {
    && id !in s.calls && t.calls.Keys == s.calls.Keys + {id} && t.calls[id].stage == Start
    && t.root == s.root && t.fs == s.fs && t.created == s.created && t.renames == s.renames
    && forall j :: j in s.calls ==> t.calls[j] == s.calls[j]
  }

  lemma BeginIsBegun(s: Store, e: Event)
    requires e.Begin? && CanHappen(s, e)
    ensures Begun(s, Happen(s, e), e.id)
  {
  }

  lemma BeginOwned(s: Store, t: Store, id: CallId)
    requires Owned(s) && Exclusive(s) && Begun(s, t, id)
    ensures Owned(t) && Exclusive(t)
  {
    assert Mention(t.calls[id]) == None;
    hide Mention;
    forall q | q in t.created ensures q.Temp? && exists j: CallId :: MayHaveCreated(t, j, q) {
      var j: CallId :| MayHaveCreated(s, j, q);
      assert MayHaveCreated(t, j, q);
    }
  }

  lemma BeginFinals(init: Files, s: Store, t: Store, id: CallId)
    requires Finals(init, s) && Begun(s, t, id)
    ensures Finals(init, t)
  {
    hide PathOf, Lookup;
    forall p | FromSomeCall(s, p) ensures FromSomeCall(t, p) {
      var j: CallId :| Whole(s, j, p);
      assert Whole(t, j, p);
    }
    forall p | IsCreated(s, p) ensures IsCreated(t, p) {}
    forall j | j in t.calls && Landed(t.calls[j].stage) ensures FromSomeCall(t, FinalOf(t.root, t.calls[j])) {
      assert FromSomeCall(s, FinalOf(s.root, s.calls[j]));
    }
  }

  lemma BeginNoOrphans(s: Store, t: Store, id: CallId)
    requires NoOrphans(s) && Contents(s) && Begun(s, t, id)
    ensures NoOrphans(t) && Contents(t)
  {
    assert Content(t.root, t.fs, t.calls[id]);
    hide PathOf, Lookup, Mention, Content;
    forall q | q in t.created && Lookup(t.fs, PathOf(t.root, q)).Some? ensures HeldBySome(t, q) {
      assert HeldBySome(s, q);
      var j :| j in s.calls && Mention(s.calls[j]) == Some(q);
      assert t.calls[j] == s.calls[j];
    }
  }

  lemma BeginLatest(init: Files, s: Store, t: Store, id: CallId)
    requires Latest(init, s) && Begun(s, t, id)
    ensures Latest(init, t)
  {
    assert !Landed(t.calls[id].stage);
    hide PathOf, Lookup, LastRename, Landed;
    LatestKept(init, s, t);
  }

  lemma DeadMention(c: Call)
    ensures var d := c.(stage := Dead(c.stage));
            Mention(d) == (if c.stage.Renamed? then None else Mention(c)) && (Landed(d.stage) ==> Landed(c.stage))
            && !d.stage.Start? && (Landed(c.stage) || c.stage.Lost? ==> Landed(d.stage) || d.stage.Lost?)
  {
  }

  lemma DeadContent(root: string, fs: Files, c: Call)
    requires Content(root, fs, c)
    ensures Content(root, fs, c.(stage := Dead(c.stage)))
  {
    hide PathOf, Lookup;
  }

  lemma CrashKeeps(init: Files, s: Store)
    requires Inv(init, s)
    ensures Inv(init, Happen(s, Crash))
  {
    hide Owned, Exclusive, Contents, Finals, NoOrphans, Latest, SameCalls, Happen;
    var t := Happen(s, Crash);
    CrashSame(s);
    CrashContents(s);
    CrashOwned(s, t);
    CrashExclusive(s, t);
    CrashFinals(init, s, t);
    CrashLatest(init, s, t);
    CrashNoOrphans(s);
  }

  lemma CrashSame(s: Store)
    ensures SameCalls(s, Happen(s, Crash))
  {
    hide Mention, Dead, Landed;
    var t := Happen(s, Crash);
    forall id | id in s.calls ensures SameCall(s.calls[id], t.calls[id]) {
      DeadMention(s.calls[id]);
    }
  }

  lemma CrashContents(s: Store)
    requires Contents(s)
    ensures Contents(Happen(s, Crash))
  {
    hide Content, Dead;
    forall id | id in s.calls ensures Content(s.root, s.fs, s.calls[id].(stage := Dead(s.calls[id].stage))) {
      DeadContent(s.root, s.fs, s.calls[id]);
    }
  }

  lemma CrashNoOrphans(s: Store)
    requires Contents(s) && NoOrphans(s)
    ensures NoOrphans(Happen(s, Crash))
  {
    hide PathOf, Lookup, Mention, Dead, Content;
    var t := Happen(s, Crash);
    forall q | q in t.created && Lookup(t.fs, PathOf(t.root, q)).Some? ensures HeldBySome(t, q) {
      assert HeldBySome(s, q);
      var id :| id in s.calls && Mention(s.calls[id]) == Some(q);
      RenamedIsGone(s, id, q);
      DeadMention(s.calls[id]);
      assert id in t.calls && t.calls[id] == s.calls[id].(stage := Dead(s.calls[id].stage));
      assert Mention(t.calls[id]) == Some(q);
    }
  }

  lemma RenamedIsGone(s: Store, id: CallId, q: Place)
    requires Contents(s) && id in s.calls && Mention(s.calls[id]) == Some(q)
    requires Lookup(s.fs, PathOf(s.root, q)).Some?
    ensures !s.calls[id].stage.Renamed?
  {
    hide PathOf, Lookup;
  }

  ghost predicate SameCalls(s: Store, t: Store) {
    && t.root == s.root && t.fs == s.fs && t.created == s.created && t.renames == s.renames
    && t.calls.Keys == s.calls.Keys
    && forall id :: id in s.calls ==> SameCall(s.calls[id], t.calls[id])
  }

  // A call after the process has died.
  predicate SameCall(c: Call, d: Call) {
    && d == c.(stage := d.stage) && !d.stage.Start?
    && (Mention(d) == Mention(c) || Mention(d) == None)
    && (Landed(d.stage) ==> Landed(c.stage))
    && (Landed(c.stage) || c.stage.Lost? ==> Landed(d.stage) || d.stage.Lost?)
  }

  lemma CrashLatest(init: Files, s: Store, t: Store)
    requires Latest(init, s) && SameCalls(s, t)
    ensures Latest(init, t)
  {
    hide Mention, Landed, PathOf, Lookup, LastRename;
    LatestKept(init, s, t);
  }

  lemma CrashExclusive(s: Store, t: Store)
    requires Exclusive(s) && SameCalls(s, t)
    ensures Exclusive(t)
  {
    hide Mention, Landed;
  }

  lemma CrashOwned(s: Store, t: Store)
    requires Owned(s) && SameCalls(s, t)
    ensures Owned(t)
  {
    hide Mention, Landed;
    forall q | q in t.created ensures q.Temp? && exists id: CallId :: MayHaveCreated(t, id, q) {
      var id: CallId :| MayHaveCreated(s, id, q);
      assert MayHaveCreated(t, id, q);
    }
  }

  lemma CrashFinals(init: Files, s: Store, t: Store)
    requires Finals(init, s) && SameCalls(s, t)
    ensures Finals(init, t)
  {
    hide Mention, Landed, PathOf, Lookup;
    forall p | FromSomeCall(s, p) ensures FromSomeCall(t, p) {
      var id: CallId :| Whole(s, id, p);
      assert Whole(t, id, p);
    }
    forall p | IsCreated(s, p) ensures IsCreated(t, p) {}
    forall id | id in t.calls && Landed(t.calls[id].stage) ensures FromSomeCall(t, FinalOf(t.root, t.calls[id])) {
      assert FromSomeCall(s, FinalOf(s.root, s.calls[id]));
    }
  }

  // An action of call id: what StepEffect says of it, and that its temporary is nobody else's.
  ghost predicate Acted(s: Store, t: Store, id: CallId, a: Action) {
    && id in s.calls && t.root == s.root && t.calls.Keys == s.calls.Keys
    && (forall j :: j in s.calls && j != id ==> t.calls[j] == s.calls[j])
    && ActedHere(s, t, s.calls[id], t.calls[id], a)
  }

  ghost predicate ActedHere(s: Store, t: Store, c: Call, d: Call, a: Action) {
    && d == c.(stage := d.stage) && !d.stage.Start? && !c.stage.Lost?
    && Content(s.root, t.fs, d)
    && t.created == (if a.Create? then s.created + {Temp(c.kind, c.serial, a.suffix)} else s.created)
    && (Mention(d) == Mention(c) || Mention(d) == None
       || (a.Create? && Mention(d) == Some(Temp(c.kind, c.serial, a.suffix))))
    && (a.Create? ==> Mention(c) == None && Mention(d).Some? && Temp(c.kind, c.serial, a.suffix) !in s.created)
    && (Landed(d.stage) <==> a.Rename? || Landed(c.stage))
    && (a.Rename? ==> Lookup(t.fs, FinalOf(s.root, c)) == Some(c.data))
    && (forall p :: Lookup(t.fs, p) == Lookup(s.fs, p) || (a.Rename? && p == FinalOf(s.root, c))
                    || (Mention(d).Some? && p == PathOf(s.root, Mention(d).value))
                    || (Mention(c).Some? && p == PathOf(s.root, Mention(c).value)))
    && (Mention(c).Some? && Mention(d) == None ==> Lookup(t.fs, PathOf(s.root, Mention(c).value)) == None)
  }

  lemma ActIsActed(s: Store, e: Event)
    requires Contents(s) && e.Act? && CanHappen(s, e) && Fresh(s, e)
    ensures Acted(s, Happen(s, e), e.id, e.action)
  {
    hide PathOf, Lookup, Mention, Content, Landed, NextFiles;
    var c := s.calls[e.id];
    StepEffect(s.root, s.fs, c, e.action);
    if Mention(c).Some? && Mention(c.(stage := NextStage(s.root, s.fs, c, e.action))) == None {
      StepCleansUp(s.root, s.fs, c, e.action);
    }
    CreateMentions(s.root, s.fs, c, e.action);
  }

  lemma CreateMentions(root: string, fs: Files, c: Call, a: Action)
    requires Enabled(root, fs, c, a)
    ensures !NextStage(root, fs, c, a).Start? && !c.stage.Lost?
    ensures a.Create? ==> Mention(c) == None && Mention(c.(stage := NextStage(root, fs, c, a))).Some?
  {
    hide PathOf;
  }

  lemma ActOwned(s: Store, t: Store, id: CallId, a: Action)
    requires Owned(s) && Acted(s, t, id, a)
    ensures Owned(t)
  {
    hide Mention, Landed, PathOf, Lookup, Content;
    forall q | q in t.created ensures q.Temp? && exists j: CallId :: MayHaveCreated(t, j, q) {
      if q in s.created {
        var j: CallId :| MayHaveCreated(s, j, q);
        assert MayHaveCreated(t, j, q);
      } else {
        assert MayHaveCreated(t, id, q);
      }
    }
    ActMentions(s, t, id, a);
  }

  lemma ActMentions(s: Store, t: Store, id: CallId, a: Action)
    requires Owned(s) && Acted(s, t, id, a)
    ensures forall j :: j in t.calls && Mention(t.calls[j]).Some? ==> Mention(t.calls[j]).value in t.created
    ensures forall j :: j in t.calls && j != id && Mention(t.calls[j]).Some? ==> Mention(t.calls[j]).value in s.created
    ensures Mention(t.calls[id]) == Mention(s.calls[id]) || Mention(t.calls[id]) == None
            || (Mention(s.calls[id]) == None && Mention(t.calls[id]).Some? && Mention(t.calls[id]).value !in s.created)
  {
    hide Mention, Landed, PathOf, Lookup, Content;
    hide MayHaveCreated;
  }

  lemma ActExclusive(s: Store, t: Store, id: CallId, a: Action)
    requires Owned(s) && Exclusive(s) && Acted(s, t, id, a)
    ensures Exclusive(t)
  {
    ActMentions(s, t, id, a);
    hide Mention, Owned, ActedHere;
  }

  lemma OwnTemp(s: Store, t: Store, id: CallId, a: Action, p: string)
    requires Acted(s, t, id, a) && Owned(s)
    requires Lookup(t.fs, p) != Lookup(s.fs, p) && !(a.Rename? && p == FinalOf(s.root, s.calls[id]))
    ensures IsCreated(t, p)
    ensures (Mention(t.calls[id]).Some? && p == PathOf(s.root, Mention(t.calls[id]).value))
            || (Mention(s.calls[id]).Some? && p == PathOf(s.root, Mention(s.calls[id]).value))
  {
    hide Mention, Landed, PathOf, Lookup, Content;
  }

  /** No call touches another's temporary. */
  lemma ActContents(s: Store, t: Store, id: CallId, a: Action)
    requires Owned(s) && Owned(t) && Exclusive(s) && Exclusive(t) && Contents(s) && Acted(s, t, id, a)
    ensures Contents(t)
  {
    hide Landed, Lookup, Content, PathOf, Mention;
    forall j | j in t.calls && j != id ensures Content(t.root, t.fs, t.calls[j]) {
      var d := t.calls[j];
      if Mention(d).Some? {
        var p := PathOf(t.root, Mention(d).value);
        if Lookup(t.fs, p) != Lookup(s.fs, p) {
          NotMine(s, t, id, a, j);
        }
        assert Lookup(t.fs, p) == Lookup(s.fs, p);
      }
      ContentFrame(t.root, s.fs, t.fs, d);
    }
  }

  lemma NotMine(s: Store, t: Store, id: CallId, a: Action, j: CallId)
    requires Owned(s) && Owned(t) && Exclusive(s) && Exclusive(t) && Acted(s, t, id, a)
    requires j in t.calls && j != id && Mention(t.calls[j]).Some?
    ensures Lookup(t.fs, PathOf(t.root, Mention(t.calls[j]).value))
            == Lookup(s.fs, PathOf(t.root, Mention(t.calls[j]).value))
  {
    hide Landed, Lookup, Content, PathOf, Mention;
    var q := Mention(t.calls[j]).value;
    assert q.Temp?;
    PathsApart(s.root);
    var c := s.calls[id];
    assert q != Final(c.kind, c.serial);
  }

  lemma ContentFrame(root: string, fs: Files, gs: Files, c: Call)
    requires Content(root, fs, c)
    requires Mention(c).Some? ==>
               Lookup(gs, PathOf(root, Mention(c).value)) == Lookup(fs, PathOf(root, Mention(c).value))
    ensures Content(root, gs, c)
  {
    hide PathOf, Lookup;
  }

  lemma ActFinals(init: Files, s: Store, t: Store, id: CallId, a: Action)
    requires Owned(s) && Owned(t) && Finals(init, s) && Acted(s, t, id, a)
    ensures Finals(init, t)
  {
    hide Mention, Landed, PathOf, Lookup, Content;
    forall p | FromSomeCall(s, p) ensures FromSomeCall(t, p) {
      WholeStays(s, t, id, a, p);
    }
    forall p | IsCreated(s, p) ensures IsCreated(t, p) {}
    forall p: string ensures Lookup(t.fs, p) == Lookup(init, p) || FromSomeCall(t, p) || IsCreated(t, p) {
      if Lookup(t.fs, p) != Lookup(s.fs, p) {
        if a.Rename? && p == FinalOf(s.root, s.calls[id]) {
          assert Whole(t, id, p);
        } else {
          OwnTemp(s, t, id, a, p);
        }
      }
    }
    forall j | j in t.calls && Landed(t.calls[j].stage) ensures FromSomeCall(t, FinalOf(t.root, t.calls[j])) {
      if j == id && a.Rename? {
        assert Whole(t, id, FinalOf(t.root, t.calls[j]));
      } else {
        assert FromSomeCall(s, FinalOf(s.root, s.calls[j]));
      }
    }
  }

  lemma WholeStays(s: Store, t: Store, id: CallId, a: Action, p: string)
    requires Owned(s) && Owned(t) && Acted(s, t, id, a) && FromSomeCall(s, p)
    ensures FromSomeCall(t, p)
  {
    hide Mention, Landed, PathOf, Lookup, Content;
    var j: CallId :| Whole(s, j, p);
    if a.Rename? && p == FinalOf(s.root, s.calls[id]) {
      assert Whole(t, id, p);
    } else {
      if Lookup(t.fs, p) != Lookup(s.fs, p) {
        OwnTemp(s, t, id, a, p);
        var q :| q in t.created && p == PathOf(t.root, q);
        PathInjective(s.root, q, Final(s.calls[j].kind, s.calls[j].serial));
      }
      assert Lookup(t.fs, p) == Lookup(s.fs, p);
      assert Whole(t, j, p);
    }
  }

  lemma ActNoOrphans(s: Store, t: Store, id: CallId, a: Action)
    requires Owned(s) && Owned(t) && NoOrphans(s) && Acted(s, t, id, a)
    ensures NoOrphans(t)
  {
    hide Mention, Landed, PathOf, Lookup, Content;
    forall q | q in t.created && Lookup(t.fs, PathOf(t.root, q)).Some? ensures HeldBySome(t, q) {
      if Mention(t.calls[id]) != Some(q) {
        TouchedTemp(s, t, id, a, q);
        assert HeldBySome(s, q);
        var j :| j in s.calls && Mention(s.calls[j]) == Some(q);
        assert j != id ==> t.calls[j] == s.calls[j];
      }
    }
  }

  lemma TouchedTemp(s: Store, t: Store, id: CallId, a: Action, q: Place)
    requires Acted(s, t, id, a) && Mention(t.calls[id]) != Some(q) && q.Temp?
    ensures Mention(s.calls[id]) == Some(q) ==> Lookup(t.fs, PathOf(t.root, q)) == None
    ensures Mention(s.calls[id]) != Some(q) ==> Lookup(t.fs, PathOf(t.root, q)) == Lookup(s.fs, PathOf(t.root, q))
  {
    hide Mention, Landed, PathOf, Lookup, Content;
    PathsApart(s.root);
    assert q != Final(s.calls[id].kind, s.calls[id].serial);
  }

  /** Which rename came last does not depend on how far calls have got. */
  lemma {:induction false} LastRenameSame(calls: map<CallId, Call>, more: map<CallId, Call>,
                                       renames: seq<CallId>, place: Place)
    requires forall id :: id in renames ==>
               id in calls && id in more && more[id].kind == calls[id].kind && more[id].serial == calls[id].serial
    ensures LastRename(more, renames, place) == LastRename(calls, renames, place)
  {
    if renames != [] {
      LastRenameSame(calls, more, renames[..|renames| - 1], place);
    }
  }

  /** A step that renames nothing leaves every final name alone. */
  lemma LatestKept(init: Files, s: Store, t: Store)
    requires Latest(init, s) && t.root == s.root && t.renames == s.renames
    requires Renamers(t)
    requires forall id :: id in s.calls ==> id in t.calls && t.calls[id] == s.calls[id].(stage := t.calls[id].stage)
    requires forall place: Place ::
               place.Final? ==> Lookup(t.fs, PathOf(t.root, place)) == Lookup(s.fs, PathOf(s.root, place))
    ensures Latest(init, t)
  {
    hide PathOf, Lookup, LastRename, Landed;
    forall place: Place | place.Final? ensures Lookup(t.fs, PathOf(t.root, place)) == Expected(init, t, place) {
      LastRenameSame(s.calls, t.calls, s.renames, place);
    }
  }

  lemma ActCalls(s: Store, t: Store, id: CallId, a: Action)
    requires Acted(s, t, id, a)
    ensures t.root == s.root && id in s.calls && id in t.calls && t.calls.Keys == s.calls.Keys
    ensures forall j :: j in s.calls ==> t.calls[j] == s.calls[j].(stage := t.calls[j].stage)
    ensures a.Rename? ==>
              Lookup(t.fs, PathOf(s.root, Final(s.calls[id].kind, s.calls[id].serial))) == Some(s.calls[id].data)
  {
    hide Mention, Landed, PathOf, Lookup, Content;
  }

  lemma ActRenamers(s: Store, t: Store, id: CallId, a: Action)
    requires Renamers(s) && Acted(s, t, id, a)
    requires t.renames == if a.Rename? then s.renames + [id] else s.renames
    ensures Renamers(t)
  {
    hide Mention, Landed, PathOf, Lookup, Content;
  }

  lemma ActLatest(init: Files, s: Store, t: Store, id: CallId, a: Action)
    requires Latest(init, s) && Owned(s) && Owned(t) && Acted(s, t, id, a)
    requires t.renames == if a.Rename? then s.renames + [id] else s.renames
    ensures Latest(init, t)
  {
    hide Acted, Owned, Landed, PathOf, Lookup, LastRename;
    ActCalls(s, t, id, a);
    ActRenamers(s, t, id, a);
    forall place: Place | place.Final? && !(a.Rename? && Targets(s.calls[id], place))
      ensures Lookup(t.fs, PathOf(t.root, place)) == Lookup(s.fs, PathOf(s.root, place))
    {
      FinalUntouched(s, t, id, a, place);
    }
    if a.Rename? {
      forall place: Place | place.Final? ensures Lookup(t.fs, PathOf(t.root, place)) == Expected(init, t, place) {
        LastRenameMore(t.calls, s.renames, id, place);
        LastRenameSame(s.calls, t.calls, s.renames, place);
      }
    } else {
      LatestKept(init, s, t);
    }
  }

  lemma LastRenameMore(calls: map<CallId, Call>, renames: seq<CallId>, id: CallId, place: Place)
    requires id in calls
    ensures LastRename(calls, renames + [id], place) == if Targets(calls[id], place) then Some(id)
            else LastRename(calls, renames, place)
  {
    assert (renames + [id])[..|renames|] == renames;
  }

  lemma FinalUntouched(s: Store, t: Store, id: CallId, a: Action, place: Place)
    requires Owned(s) && Owned(t) && Acted(s, t, id, a) && place.Final?
    requires !(a.Rename? && Targets(s.calls[id], place))
    ensures Lookup(t.fs, PathOf(t.root, place)) == Lookup(s.fs, PathOf(s.root, place))
  {
    hide Mention, Landed, PathOf, Lookup, Content;
    PathsApart(s.root);
    var p := PathOf(s.root, place);
    if Lookup(t.fs, p) != Lookup(s.fs, p) {
      OwnTemp(s, t, id, a, p);
    }
  }

  lemma ActRenames(s: Store, e: Event)
    requires e.Act? && CanHappen(s, e)
    ensures Happen(s, e).renames == if e.action.Rename? then s.renames + [e.id] else s.renames
  {
    hide Enabled, NextFiles, NextStage;
  }

  lemma StepKeeps(init: Files, s: Store, e: Event)
    requires Inv(init, s) && CanHappen(s, e) && Fresh(s, e)
    ensures Inv(init, Happen(s, e))
  {
    hide Happen, Owned, Exclusive, Contents, Finals, NoOrphans, Latest, Acted, Begun, CanHappen, Fresh;
    var t := Happen(s, e);
    if e.Begin? {
      assert Begun(s, t, e.id) by {
        BeginIsBegun(s, e);
      }
      BeginOwned(s, t, e.id);
      BeginFinals(init, s, t, e.id);
      BeginNoOrphans(s, t, e.id);
      BeginLatest(init, s, t, e.id);
    } else if e.Crash? {
      CrashKeeps(init, s);
    } else {
      ActIsActed(s, e);
      ActOwned(s, t, e.id, e.action);
      ActExclusive(s, t, e.id, e.action);
      ActContents(s, t, e.id, e.action);
      ActFinals(init, s, t, e.id, e.action);
      ActNoOrphans(s, t, e.id, e.action);
      ActRenames(s, e);
      ActLatest(init, s, t, e.id, e.action);
    }
  }

  // -- Runs ------------------------------------------------------------------------------

  lemma InitialInv(s: Store)
    requires Initial(s)
    ensures Inv(s.fs, s)
  {
  }

  lemma {:induction false} RunKeeps(init: Files, s: Store, es: seq<Event>, t: Store)
    requires Inv(init, s) && Steps(s, es, t)
    ensures Inv(init, t)
    decreases |es|
  {
    hide Inv, Happen, CanHappen, Fresh;
    if es != [] {
      StepKeeps(init, s, es[0]);
      RunKeeps(init, Happen(s, es[0]), es[1..], t);
    }
  }

  /**
   In every reachable state, whatever has failed or died: a final name holds, whole, the data of the call
   that was the last to rename its file there, and if none has, what it held at the start.
   */
  lemma NothingPartial(s: Store, es: seq<Event>, t: Store, place: Place)
    requires Initial(s) && Steps(s, es, t) && place.Final?
    ensures Lookup(t.fs, PathOf(t.root, place))
         == match LastRename(t.calls, t.renames, place)
            case None => Lookup(s.fs, PathOf(t.root, place))
            case Some(id) => Some(t.calls[id].data)
  {
    hide PathOf, Lookup, Content, Mention, Landed, LastRename;
    InitialInv(s);
    RunKeeps(s.fs, s, es, t);
  }

  lemma NothingElseChanges(s: Store, es: seq<Event>, t: Store, p: string)
    requires Initial(s) && Steps(s, es, t) && Lookup(t.fs, p) != Lookup(s.fs, p)
    ensures exists id: CallId, place: Place ::
              id in t.calls && place.kind == t.calls[id].kind && place.serial == t.calls[id].serial
              && p == PathOf(t.root, place) && (place.Temp? ==> place in t.created)
  {
    hide PathOf, Lookup, Content, Mention, Landed;
    InitialInv(s);
    RunKeeps(s.fs, s, es, t);
    if IsCreated(t, p) {
      var q :| q in t.created && p == PathOf(t.root, q);
      var id: CallId :| MayHaveCreated(t, id, q);
      assert id in t.calls && q.kind == t.calls[id].kind;
    } else {
      var id: CallId :| Whole(t, id, p);
      var place := Final(t.calls[id].kind, t.calls[id].serial);
      assert id in t.calls && place.kind == t.calls[id].kind;
    }
  }

  predicate CleanlyReturned(s: Stage) {
    s.Done? || s == Failed(None)
  }

  /** When every call has returned and removed what it had to, no temporary of the run is left. */
  lemma NothingLeftBehind(s: Store, es: seq<Event>, t: Store, place: Place)
    requires Initial(s) && Steps(s, es, t)
    requires forall id :: id in t.calls ==> CleanlyReturned(t.calls[id].stage)
    requires place in t.created
    ensures PathOf(t.root, place) !in t.fs
  {
    hide PathOf, Owned, Finals, Contents, Exclusive;
    InitialInv(s);
    RunKeeps(s.fs, s, es, t);
    assert forall id :: id in t.calls ==> Mention(t.calls[id]) == None;
    hide Mention, CleanlyReturned;
    assert !HeldBySome(t, place);
    assert Lookup(t.fs, PathOf(t.root, place)) == None;
  }

  /** No two calls write the same final name. */
  predicate Distinct(s: Store) {
    forall i, j :: i in s.calls && j in s.calls && i != j ==> !SameTarget(s.calls[i], s.calls[j])
  }

  /** Then a finished call's data is what its final name holds, for good. */
  lemma FinishedStays(init: Files, s: Store, id: CallId)
    requires Inv(init, s) && Distinct(s)
    requires id in s.calls && Landed(s.calls[id].stage)
    ensures Lookup(s.fs, FinalOf(s.root, s.calls[id])) == Some(s.calls[id].data)
  {
    hide PathOf, Lookup, Content, Mention;
    var p := FinalOf(s.root, s.calls[id]);
    assert FromSomeCall(s, p);
    var j: CallId :| Whole(s, j, p);
    PathInjective(s.root, Final(s.calls[id].kind, s.calls[id].serial), Final(s.calls[j].kind, s.calls[j].serial));
    assert SameTarget(s.calls[id], s.calls[j]);
  }

  /** And a temporary's name cannot repeat an earlier one: the file system need not promise it. */
  lemma DistinctIsFresh(s: Store, e: Event)
    requires Owned(s) && Distinct(s) && CanHappen(s, e)
    ensures Fresh(s, e)
  {
    hide PathOf, Mention, NextFiles;
    if e.Act? && e.action.Create? {
      var c := s.calls[e.id];
      var q := Temp(c.kind, c.serial, e.action.suffix);
      assert forall j: CallId :: j in s.calls && j != e.id ==> !SameTarget(s.calls[j], c);
      assert forall j: CallId :: !MayHaveCreated(s, j, q);
    }
  }
}
