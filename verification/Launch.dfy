/** The launcher's start: recovery, a deferred update if one waits, and the
    version on probation; from any root whose journal was written record by
    record, whether or not pointer and tree still agree with it. */
module Launch {
  import opened Bytes
  import opened Journal
  import opened Install
  import opened Txn
  import opened Trial
  import opened Apply

  /** The journal was grown by appends, and says what it is about. */
  ghost predicate Filed(r: Root) {
    Grown(r.journal) && (r.journal != [] ==> Last(r.journal).to != "" && Last(r.journal).name != "")
  }

  predicate Waiting(r: Root) {
    r.journal != [] && Last(r.journal).state == Deferred
  }

  /** Recovery takes the transaction back. */
  predicate Undoing(r: Root) {
    && r.journal != []
    && (Last(r.journal).state in {Begin, Staged}
        || (Last(r.journal).state == Migrated && r.current != Last(r.journal).to))
  }

  /** Recovery finishes the transaction. */
  predicate Finishing(r: Root) {
    && r.journal != [] && r.current == Last(r.journal).to && Last(r.journal).state in {Migrated, Swapped}
  }

  /** There is something to put the pointer back to. */
  predicate Returnable(r: Root, t: Record) {
    t.from == "" || r.current == t.from || t.from in r.dirs
  }

  /** Where `current` stands after recovery, or nothing where recovery refuses. */
  function Lands(r: Root): Option<Version> {
    if Undoing(r) then
      (if Returnable(r, Last(r.journal)) then Some(Last(r.journal).from) else None)
    else if r.journal != []
            && (Last(r.journal).state == Uninstalling
                || (Last(r.journal).state == Swapped && r.current != Last(r.journal).to)) then None
    else Some(r.current)
  }

  function DirsAfter(r: Root): map<Version, bool> {
    if Undoing(r) && Last(r.journal).to != Last(r.journal).from then r.dirs - {Last(r.journal).to} else r.dirs
  }

  function InstallAfter(r: Root): Option<InstallState> {
    if Finishing(r) then Some(InstallState(Last(r.journal).name, Last(r.journal).to)) else r.install
  }

  function JournalAfter(r: Root): seq<Record> {
    if Undoing(r) then r.journal + [Last(r.journal).(state := RolledBack)]
    else if Finishing(r) then
      (if Last(r.journal).state == Migrated then r.journal + [Last(r.journal).(state := Swapped)] else r.journal)
      + [Last(r.journal).(state := Committed)]
    else r.journal
  }

  /** The launcher of a committed transaction becomes the next one. */
  function NextAfter(r: Root): Option<Launcher> {
    if && r.journal != [] && (Last(r.journal).state == Committed || Finishing(r))
       && r.current == Last(r.journal).to && r.current in r.pending
    then Some(r.pending[r.current])
    else r.next
  }

  /** The root that a recovery leaves: where an update waits, the same one. */
  function Recovered(r: Root): Root
    requires Lands(r).Some?
  {
    if Waiting(r) then r
    else Root(JournalAfter(r), Lands(r).value, DirsAfter(r), InstallAfter(r), {}, map[], NextAfter(r), r.probation)
  }

  /** What a recovery leaves. */
  ghost predicate Landed(r: Root, r': Root) {
    && Lands(r) == Some(r'.current) && r'.dirs == DirsAfter(r) && r'.install == InstallAfter(r)
    && r'.probation == r.probation && Filed(r') && Resting(r')
    && (Waiting(r) ==> r' == r) && (Waiting(r') ==> Waiting(r)) && (r'.journal == [] <==> r.journal == [])
  }

  // Recovery from any filed root.

  lemma UndoResult(r: Root)
    requires Filed(r) && r.journal != [] && Last(r.journal).state in {Begin, Staged, Migrated, Swapped, Deferred}
    ensures var t := Last(r.journal);
            && (Undo(r, t).ok <==> Returnable(r, t))
            && (!Returnable(r, t) ==> Undo(r, t).writes == [])
            && (Returnable(r, t) ==>
                  After(r, Undo(r, t))
                  == r.(current := t.from, dirs := if t.to != t.from then r.dirs - {t.to} else r.dirs,
                        journal := r.journal + [t.(state := RolledBack)], pending := map[], staged := {}))
  {
    var t := Last(r.journal);
    var p1 := RestorePointer(r, t);
    var p2 := if t.to != t.from then RemoveVersion(t.to) else DONE;
    var p3 := Note(r, t.(state := RolledBack));
    NoteKeeps(r, RolledBack);
    if p1.ok {
      RestoreResult(r, t);
      var r1 := r.(current := t.from);
      RemoveResult(r1, t.to);
      var r2 := After(r1, p2);
      NoteKeeps(r2, RolledBack);
      CleanResult(After(r2, p3));
      AfterThen(r2, p3, CleanOrphans());
      AfterThen(r1, p2, Then(p3, CleanOrphans()));
      AfterThen(r, p1, Then(p2, Then(p3, CleanOrphans())));
    }
  }

  lemma Promoted(r: Root, v: Version)
    ensures var p := PromoteLauncher(r, v);
            p.ok && After(r, p) == if v in r.pending then r.(next := Some(r.pending[v]), pending := r.pending - {v}) else r
  {
    var p := PromoteLauncher(r, v);
    if v in r.pending {
      if |p.writes| == 2 {
        assert p.writes[1..] == [Promote(v)] && [Promote(v)][1..] == [];
        assert Exec(Do(r, DropNext), [Promote(v)]) == Do(Do(r, DropNext), Promote(v));
      } else {
        ExecOne(r, Promote(v));
      }
    }
  }

  lemma SettleResult(r: Root, t: Record)
    ensures SettleCommitted(r, t).ok
    ensures After(r, SettleCommitted(r, t))
            == r.(next := if t.to in r.pending && r.current == t.to then Some(r.pending[t.to]) else r.next,
                  pending := map[], staged := {})
  {
    CleanResult(r);
    if t.to in r.pending && r.current == t.to {
      var p := PromoteLauncher(r, t.to);
      Promoted(r, t.to);
      CleanResult(After(r, p));
      AfterThen(r, p, CleanOrphans());
    }
  }

  lemma CompleteSwappedResult(r: Root, t: Record)
    requires Filed(r) && r.journal != [] && SameTransaction(t, Last(r.journal)) && Last(r.journal).state == Swapped
    requires r.current == t.to
    ensures var p := CompleteSwapped(r, t);
            && p.ok && Filed(After(r, p))
            && After(r, p) == Root(r.journal + [t.(state := Committed)], r.current, r.dirs,
                                   Some(InstallState(t.name, t.to)), {}, map[], NextAfter(r), r.probation)
  {
    var committed := t.(state := Committed);
    assert committed == Last(r.journal).(state := Committed);
    var i := InstallState(t.name, t.to);
    var r1 := r.(install := Some(i));
    ExecOne(r, PutInstall(i));
    NoteKeeps(r, Committed);
    NoteKeeps(r1, Committed);
    var r2 := r1.(journal := r.journal + [committed]);
    SettleResult(r2, committed);
    assert SettleCommitted(r2, committed) == SettleCommitted(r, committed);
    AfterThen(r1, Note(r, committed), SettleCommitted(r, committed));
    AfterThen(r, One(PutInstall(i)), Then(Note(r, committed), SettleCommitted(r, committed)));
  }

  lemma CompleteResult(r: Root)
    requires Filed(r) && Finishing(r)
    ensures var t := Last(r.journal);
            var p := Complete(r, t);
            && p.ok && Landed(r, After(r, p)) && After(r, p) == Recovered(r)
  {
    var t := Last(r.journal);
    if t.state == Swapped {
      CompleteSwappedResult(r, t);
    } else {
      var swapped := Note(r, t.(state := Swapped));
      NoteKeeps(r, Swapped);
      var r1 := r.(journal := r.journal + [t.(state := Swapped)]);
      CompleteSwappedResult(r1, t);
      AfterThen(r, swapped, CompleteSwapped(r1, t));
    }
  }

  /** Recovery succeeds from exactly the filed roots that are not being
      uninstalled, whose recorded swap the pointer bears out, and whose version to
      return to, where the transaction is taken back, is none, live or there. It
      then leaves `current`, directories and install state as said above; where it
      refuses, it writes nothing, so it refuses for good. */
  lemma RecoverExactly(r: Root)
    requires Filed(r)
    ensures Recover(r).ok <==> Lands(r).Some?
    ensures Recover(r).ok ==> Landed(r, After(r, Recover(r)))
    ensures !Recover(r).ok ==> Recover(r).writes == []
  {
    if r.journal == [] || Last(r.journal).state in {Committed, RolledBack, Deferred} {
      RestingRecovery(r);
    } else if Undoing(r) {
      UndoResult(r);
      NoteKeeps(r, RolledBack);
    } else if Finishing(r) {
      CompleteResult(r);
    }
  }

  /** The whole of the root it leaves: what is pending is promoted or swept, and
      journal and next launcher are exactly these too. */
  lemma RecoverLeaves(r: Root)
    requires Filed(r) && Lands(r).Some?
    ensures After(r, Recover(r)) == Recovered(r)
  {
    CleanResult(r);
    if r.journal != [] {
      SettleResult(r, Last(r.journal));
      if Undoing(r) {
        UndoResult(r);
      } else if Finishing(r) {
        CompleteResult(r);
      }
    }
  }

  /** What is there for a rollback to take back. */
  predicate InFlight(r: Root) {
    r.journal != [] && Last(r.journal).state in {Begin, Staged, Migrated, Swapped, Deferred}
  }

  /** An in-process rollback takes back whatever state the transaction reached, a
      swap or a deferral included, and succeeds if and only if there is something
      to return to; where there is nothing to take back it does what a recovery
      does. */
  lemma RollbackExactly(r: Root)
    requires Filed(r)
    ensures Rollback(r).ok <==> if InFlight(r) then Returnable(r, Last(r.journal)) else Lands(r).Some?
    ensures !Rollback(r).ok ==> Rollback(r).writes == []
    ensures Rollback(r).ok && InFlight(r) ==>
              var t := Last(r.journal);
              After(r, Rollback(r))
              == Root(r.journal + [t.(state := RolledBack)], t.from,
                      if t.to != t.from then r.dirs - {t.to} else r.dirs, r.install, {}, map[], r.next, r.probation)
    ensures Rollback(r).ok && !InFlight(r) ==> After(r, Rollback(r)) == Recovered(r)
  {
    if InFlight(r) {
      UndoResult(r);
    } else {
      RecoverExactly(r);
      assert Rollback(r) == Recover(r);
      if Lands(r).Some? {
        RecoverLeaves(r);
      }
    }
  }

  // A deferred update, and what may happen beneath it.

  /** A swap that happened: recovery goes forwards from here. */
  ghost predicate Forward(t: Record, r: Root) {
    && Filed(r) && r.journal != [] && SameTransaction(t, Last(r.journal)) && r.current == t.to
    && Last(r.journal).state in {Migrated, Swapped, Committed}
  }

  ghost function Forwards(t: Record): Root -> bool {
    (r: Root) => Forward(t, r)
  }

  lemma {:induction false} HousekeepingForward(t: Record, r: Root, ws: seq<Write>)
    requires Forward(t, r)
    requires forall i :: 0 <= i < |ws| ==> ws[i] in {DropNext, SweepPending, SweepStaging} || ws[i].Promote?
    ensures Always(Forwards(t), r, ws)
    decreases |ws|
  {
    if ws != [] {
      HousekeepingForward(t, Do(r, ws[0]), ws[1..]);
    }
  }

  lemma SwappedForward(t: Record, r: Root)
    requires Forward(t, r) && Last(r.journal).state == Swapped
    ensures Always(Forwards(t), r, CompleteSwapped(r, t).writes)
  {
    var committed := t.(state := Committed);
    assert committed == Last(r.journal).(state := Committed);
    var i := InstallState(t.name, t.to);
    var r1 := r.(install := Some(i));
    AlwaysOne(Forwards(t), r, PutInstall(i));
    NoteKeeps(r, Committed);
    NoteKeeps(r1, Committed);
    var r2 := r1.(journal := r.journal + [committed]);
    AlwaysOne(Forwards(t), r1, SetJournal(r2.journal));
    var settle := SettleCommitted(r, committed);
    HousekeepingForward(t, r2, settle.writes);
    AlwaysThen(Forwards(t), r1, Note(r, committed), settle);
    AlwaysThen(Forwards(t), r, One(PutInstall(i)), Then(Note(r, committed), settle));
  }

  /** From the moved pointer on. */
  lemma ResumeForward(t: Record, r: Root)
    requires Forward(t, r) && Last(r.journal).state == Migrated
    ensures var swapped := Note(r, t.(state := Swapped));
            && Always(Forwards(t), r, Then(swapped, Complete(After(r, swapped), t.(state := Swapped))).writes)
  {
    var t1 := t.(state := Swapped);
    assert t1 == Last(r.journal).(state := Swapped);
    NoteKeeps(r, Swapped);
    var r1 := r.(journal := r.journal + [t1]);
    AlwaysOne(Forwards(t), r, SetJournal(r1.journal));
    SwappedForward(t, r1);
    assert CompleteSwapped(r1, t1) == CompleteSwapped(r1, t);
    AlwaysThen(Forwards(t), r, Note(r, t1), Complete(r1, t1));
  }

  ghost function Migrating(r: Root): Root
    requires r.journal != []
  {
    r.(journal := r.journal + [Last(r.journal).(state := Migrated)])
  }

  /** The parts of a resume: the record, the pointer, the rest. */
  lemma ResumeParts(r: Root)
    requires Filed(r) && Waiting(r)
    ensures var t := Last(r.journal);
            var swap := if t.to in r.dirs then One(Point(t.to)) else REFUSED;
            var r2 := Migrating(r).(current := t.to);
            var swapped := Note(r2, t.(state := Swapped));
            && Note(r, t.(state := Migrated)) == One(SetJournal(Migrating(r).journal)) && Filed(Migrating(r))
            && ResumeDeferred(r)
               == Then(One(SetJournal(Migrating(r).journal)),
                       Then(swap, if t.to in r.dirs
                                  then Then(swapped, Complete(After(r2, swapped), t.(state := Swapped)))
                                  else DONE))
  {
    var t := Last(r.journal);
    NoteKeeps(r, Migrated);
    ExecOne(Migrating(r), Point(t.to));
  }

  /** Every cut of a resume is where it started, its first record, or a swap that
      recovery finishes. */
  lemma ResumeCut(r: Root, k: nat)
    requires Filed(r) && Waiting(r)
    ensures var x := Cut(r, ResumeDeferred(r), k);
            x == r || x == Migrating(r) || Forward(Last(r.journal), x)
    ensures k == 1 ==> Cut(r, ResumeDeferred(r), k) == Migrating(r)
  {
    var t := Last(r.journal);
    ResumeParts(r);
    var first := SetJournal(Migrating(r).journal);
    var ws := ResumeDeferred(r).writes;
    ExecOne(r, first);
    if k == 0 {
      assert ws[..0] == [];
    } else if k == 1 || t.to !in r.dirs {
      assert ws[..1] == [first];
      assert t.to !in r.dirs ==> ws == [first];
    } else {
      var r2 := Migrating(r).(current := t.to);
      var swapped := Note(r2, t.(state := Swapped));
      var rest := Then(swapped, Complete(After(r2, swapped), t.(state := Swapped)));
      assert ws == [first] + ([Point(t.to)] + rest.writes);
      ResumeForward(t, r2);
      PastThePointer(t, r, first, rest.writes, k);
    }
  }

  lemma PastThePointer(t: Record, r: Root, first: Write, rest: seq<Write>, k: nat)
    requires r.journal != [] && first == SetJournal(Migrating(r).journal) && k >= 2
    requires Always(Forwards(t), Migrating(r).(current := t.to), rest)
    ensures var ws := [first] + ([Point(t.to)] + rest); Forward(t, Exec(r, ws[..if k < |ws| then k else |ws|]))
  {
    var ws := [first] + ([Point(t.to)] + rest);
    var n := if k < |ws| then k else |ws|;
    assert ws[..n] == [first] + ([Point(t.to)] + rest[..n - 2]);
    ExecConcat(r, [first], [Point(t.to)] + rest[..n - 2]);
    ExecOne(r, first);
    ExecConcat(Migrating(r), [Point(t.to)], rest[..n - 2]);
    ExecOne(Migrating(r), Point(t.to));
    AlwaysAtCut(Forwards(t), Migrating(r).(current := t.to), rest, n - 2);
  }

  /** A deferred update may be resumed, and the resume cut anywhere, without
      recovery ever refusing, if and only if the update started from nothing, or
      from a version that is live or still there, or is live itself already. */
  lemma ResumeRecoversExactly(r: Root)
    requires Filed(r) && Waiting(r)
    ensures (forall k: nat :: Recover(Cut(r, ResumeDeferred(r), k)).ok)
            <==> Returnable(r, Last(r.journal)) || r.current == Last(r.journal).to
  {
    var t := Last(r.journal);
    ResumeParts(r);
    RecoverExactly(Migrating(r));
    ResumeCut(r, 1);
    if Returnable(r, t) || r.current == t.to {
      forall k: nat
        ensures Recover(Cut(r, ResumeDeferred(r), k)).ok
      {
        ResumeCut(r, k);
        RecoverExactly(Cut(r, ResumeDeferred(r), k));
      }
    } else {
      assert !Recover(Cut(r, ResumeDeferred(r), 1)).ok;
    }
  }

  /** The version that runs has every file in place, if one runs. */
  predicate Runs(r: Root) {
    r.current == "" || Whole(r, r.current)
  }

  /** Recovery succeeds and leaves a version that runs. */
  ghost predicate RecoversRunning(r: Root) {
    Recover(r).ok && Runs(After(r, Recover(r)))
  }

  /** With a whole version live and a whole one waiting, a deferred update is safe
      to resume, whatever happens on the way, if and only if it started from
      nothing, or from a version that is live or still whole, or is live itself
      already. That the directory it started from is merely there does for
      recovery, but not for what recovery then makes live. */
  lemma ResumeIsSafeExactly(r: Root)
    requires Filed(r) && Waiting(r) && Runs(r) && Whole(r, Last(r.journal).to)
    ensures (forall k: nat :: RecoversRunning(Cut(r, ResumeDeferred(r), k)))
            <==> (var t := Last(r.journal);
                  t.from == "" || r.current == t.from || Whole(r, t.from) || r.current == t.to)
  {
    ResumeCut(r, 1);
    MigratingRuns(r);
    if RecoversRunning(Migrating(r)) {
      forall k: nat
        ensures RecoversRunning(Cut(r, ResumeDeferred(r), k))
      {
        SafeCut(r, k);
      }
    } else {
      assert !RecoversRunning(Cut(r, ResumeDeferred(r), 1));
    }
  }

  lemma MigratingRuns(r: Root)
    requires Filed(r) && Waiting(r) && Runs(r) && Whole(r, Last(r.journal).to)
    ensures RecoversRunning(Migrating(r))
            <==> (var t := Last(r.journal);
                  t.from == "" || r.current == t.from || Whole(r, t.from) || r.current == t.to)
  {
    ResumeParts(r);
    RecoverExactly(Migrating(r));
  }

  lemma SafeCut(r: Root, k: nat)
    requires Filed(r) && Waiting(r) && Runs(r) && Whole(r, Last(r.journal).to) && RecoversRunning(Migrating(r))
    ensures RecoversRunning(Cut(r, ResumeDeferred(r), k))
  {
    var x := Cut(r, ResumeDeferred(r), k);
    ResumeCut(r, k);
    if x != Migrating(r) {
      ResumeCutDirs(r, k);
      RecoverExactly(x);
    }
  }

  /** A resume touches no directory. */
  lemma ResumeCutDirs(r: Root, k: nat)
    requires Filed(r) && Waiting(r)
    ensures Cut(r, ResumeDeferred(r), k).dirs == r.dirs
  {
    var ws := ResumeDeferred(r).writes;
    ResumeWrites(r);
    SameDirs(r, ws[..if k < |ws| then k else |ws|]);
  }

  predicate LeavesDirs(p: Plan) {
    forall i :: 0 <= i < |p.writes| ==> !p.writes[i].Place? && !p.writes[i].Tear? && !p.writes[i].Drop?
  }

  lemma {:induction false} SameDirs(r: Root, ws: seq<Write>)
    requires forall i :: 0 <= i < |ws| ==> !ws[i].Place? && !ws[i].Tear? && !ws[i].Drop?
    ensures Exec(r, ws).dirs == r.dirs
    decreases |ws|
  {
    if ws != [] {
      SameDirs(Do(r, ws[0]), ws[1..]);
    }
  }

  lemma LeavesDirsThen(p: Plan, q: Plan)
    requires LeavesDirs(p) && (p.ok ==> LeavesDirs(q))
    ensures LeavesDirs(Then(p, q))
  {
  }

  lemma CompleteLeavesDirs(r: Root, t: Record)
    requires t.state == Swapped
    ensures LeavesDirs(Complete(r, t))
  {
    var committed := t.(state := Committed);
    assert LeavesDirs(SettleCommitted(r, committed));
    LeavesDirsThen(Note(r, committed), SettleCommitted(r, committed));
  }

  lemma ResumeWrites(r: Root)
    requires Filed(r) && Waiting(r)
    ensures LeavesDirs(ResumeDeferred(r))
  {
    var t := Last(r.journal);
    ResumeParts(r);
    if t.to in r.dirs {
      var r2 := Migrating(r).(current := t.to);
      var t1 := t.(state := Swapped);
      var rest := Complete(After(r2, Note(r2, t1)), t1);
      CompleteLeavesDirs(After(r2, Note(r2, t1)), t1);
      LeavesDirsThen(Note(r2, t1), rest);
      LeavesDirsThen(One(Point(t.to)), Then(Note(r2, t1), rest));
    }
  }

  // A whole start.

  /** What a start meets: whether it gets the application lock to finish a
      deferred update, whether it gets it to go back, and what a collection
      finds. */
  datatype World = World(resumes: bool, reverts: bool, sweep: Sweep)

  predicate Free(w: World) {
    w.resumes && w.reverts
  }

  ghost function Continue(r: Root, w: World): Plan {
    if Waiting(r) && w.resumes then
      var resumed := ResumeDeferred(r);
      var r1 := After(r, resumed);
      var swept := Collect(r1, w.sweep);
      Then(resumed, Then(swept, Settle(After(r1, swept), false)))
    else Settle(r, !w.reverts)
  }

  /** Recovery first; then the deferred update, if one waits and nothing runs;
      then the version on probation. */
  ghost function Start(r: Root, w: World): Plan {
    var recovered := Recover(r);
    Then(recovered, Continue(After(r, recovered), w))
  }

  /** The version that is live when a start with the lock comes to probation. */
  function Lives(r: Root): Option<Version> {
    if Waiting(r) then (if Last(r.journal).to in r.dirs then Some(Last(r.journal).to) else None) else Lands(r)
  }

  /** What the collection behind a deferred update leaves alone. */
  predicate Untaken(r: Root, s: Sweep, p: Version) {
    Waiting(r) ==> p == Last(r.journal).to || p in Pins(r) || p in s.window || p !in s.listing
  }

  /** The directory that is there when it does; one that was to go and would not
      is there, but torn. */
  predicate There(r: Root, s: Sweep, p: Version) {
    p in DirsAfter(r) && (Untaken(r, s, p) || p in s.stuck)
  }

  /** The root a start with the lock settles probation on. */
  ghost predicate Ready(r: Root, s: Sweep, r': Root) {
    && Lives(r) == Some(r'.current) && r'.probation == r.probation && Filed(r') && Resting(r') && !Waiting(r')
    && (forall p :: p in r'.dirs <==> There(r, s, p))
    && (forall p :: Whole(r', p) <==> p in DirsAfter(r) && DirsAfter(r)[p] && Untaken(r, s, p))
    && (r'.install.Some? <==> Waiting(r) || InstallAfter(r).Some?)
  }

  lemma ResumeResult(r: Root)
    requires Filed(r) && Waiting(r)
    ensures ResumeDeferred(r).ok <==> Last(r.journal).to in r.dirs
    ensures ResumeDeferred(r).ok ==>
              (var r' := After(r, ResumeDeferred(r));
               && r'.current == Last(r.journal).to && r'.dirs == r.dirs && r'.probation == r.probation
               && Filed(r') && Resting(r') && !Waiting(r') && r'.install.Some?)
  {
    ResumeLeaves(r);
    var t := Last(r.journal);
    ResumeParts(r);
    if t.to in r.dirs {
      var r3 := Swapping(r);
      SwappingFiled(r);
      CompleteResult(r3);
    }
  }

  /** The root from which a resume only has to finish. */
  ghost function Swapping(r: Root): Root
    requires r.journal != []
  {
    var t := Last(r.journal);
    r.(current := t.to, journal := r.journal + [t.(state := Migrated)] + [t.(state := Swapped)])
  }

  lemma SwappingFiled(r: Root)
    requires Filed(r) && Waiting(r)
    ensures var t, r2 := Last(r.journal), Migrating(r).(current := Last(r.journal).to);
            && Filed(Swapping(r)) && Finishing(Swapping(r))
            && Note(r2, t.(state := Swapped)) == One(SetJournal(Swapping(r).journal))
            && After(r2, Note(r2, t.(state := Swapped))) == Swapping(r)
  {
    var t := Last(r.journal);
    ResumeParts(r);
    var r2 := Migrating(r).(current := t.to);
    assert Last(r2.journal).(state := Swapped) == t.(state := Swapped);
    NoteKeeps(r2, Swapped);
  }

  /** Resuming finishes the update if and only if its directory is there, and leaves
      exactly this; where it is not there, all it leaves is its first record. */
  lemma ResumeLeaves(r: Root)
    requires Filed(r) && Waiting(r)
    ensures ResumeDeferred(r).ok <==> Last(r.journal).to in r.dirs
    ensures ResumeDeferred(r).ok ==> After(r, ResumeDeferred(r)) == Recovered(Swapping(r))
    ensures !ResumeDeferred(r).ok ==> After(r, ResumeDeferred(r)) == Migrating(r)
  {
    var t := Last(r.journal);
    ResumeParts(r);
    var r1 := Migrating(r);
    ExecOne(r, SetJournal(r1.journal));
    if t.to in r.dirs {
      var r2 := r1.(current := t.to);
      SwappingFiled(r);
      var r3 := Swapping(r);
      var swapped, rest := Note(r2, t.(state := Swapped)), Complete(r3, t.(state := Swapped));
      CompleteResult(r3);
      AfterThen(r2, swapped, rest);
      ExecOne(r1, Point(t.to));
      AfterThen(r1, One(Point(t.to)), Then(swapped, rest));
      AfterThen(r, One(SetJournal(r1.journal)), Then(One(Point(t.to)), Then(swapped, rest)));
    }
  }

  /** A start with the lock, up to probation. */
  ghost function Prepare(r: Root, s: Sweep): Plan {
    var recovered := Recover(r);
    var r1 := After(r, recovered);
    if Waiting(r1) then Then(recovered, Then(ResumeDeferred(r1), Collect(After(r1, ResumeDeferred(r1)), s)))
    else recovered
  }

  lemma ThenAssociates(p: Plan, q: Plan, t: Plan)
    ensures Then(Then(p, q), t) == Then(p, Then(q, t))
  {
    if p.ok && q.ok {
      assert p.writes + q.writes + t.writes == p.writes + (q.writes + t.writes);
    }
  }

  lemma StartIsPrepareThenSettle(r: Root, w: World)
    requires Filed(r) && Free(w)
    ensures Start(r, w) == Then(Prepare(r, w.sweep), Settle(After(r, Prepare(r, w.sweep)), false))
  {
    RecoverExactly(r);
    var recovered := Recover(r);
    var r1 := After(r, recovered);
    if recovered.ok && Waiting(r1) {
      var resumed := ResumeDeferred(r1);
      var r2 := After(r1, resumed);
      var swept := Collect(r2, w.sweep);
      var settled := Settle(After(r2, swept), false);
      ThenAssociates(recovered, Then(resumed, swept), settled);
      ThenAssociates(resumed, swept, settled);
      if resumed.ok {
        AfterThen(r1, resumed, swept);
      }
      AfterThen(r, recovered, Then(resumed, swept));
    }
  }

  lemma PrepareResult(r: Root, s: Sweep)
    requires Filed(r)
    ensures Prepare(r, s).ok <==> Lives(r).Some?
    ensures Prepare(r, s).ok ==> Ready(r, s, After(r, Prepare(r, s)))
  {
    RecoverExactly(r);
    var recovered := Recover(r);
    if recovered.ok {
      var r1 := After(r, recovered);
      if Waiting(r1) {
        var resumed := ResumeDeferred(r1);
        ResumeResult(r1);
        if resumed.ok {
          var r2 := After(r1, resumed);
          CollectReady(r, s, r2);
          AfterThen(r1, resumed, Collect(r2, s));
        }
        AfterThen(r, recovered, Then(resumed, Collect(After(r1, resumed), s)));
      }
    }
  }

  lemma CollectReady(r: Root, s: Sweep, r2: Root)
    requires Filed(r) && Waiting(r) && Last(r.journal).to in r.dirs
    requires r2.current == Last(r.journal).to && r2.dirs == r.dirs && r2.probation == r.probation
    requires Filed(r2) && Resting(r2) && !Waiting(r2) && r2.install.Some?
    ensures Ready(r, s, After(r2, Collect(r2, s)))
  {
    var r3 := After(r2, Collect(r2, s));
    forall p
      ensures p in r3.dirs <==> There(r, s, p)
      ensures Whole(r3, p) <==> Whole(r, p) && Untaken(r, s, p)
    {
      CollectResult(r2, s, p);
    }
    CollectResult(r2, s, "");
  }

  // What a start comes to.

  /** What a start with the lock does about probation, decided on the root it
      finds. */
  function Decides(r: Root): Outcome
    requires Lives(r).Some?
  {
    Decide(r.(current := Lives(r).value))
  }

  /** The version the record would go back to. */
  function Previous(r: Root): Version
    requires r.probation.Some?
  {
    r.probation.value.previous
  }

  /** A start got as far as probation: from there on it returns without an error,
      whatever probation then reports. */
  ghost predicate Started(r: Root, w: World) {
    Prepare(r, w.sweep).ok
  }

  /** And probation reported none. */
  ghost predicate Concluded(r: Root, w: World) {
    Start(r, w).ok
  }

  /** What a start that gets the lock comes to. It fails if and only if there is
      no version to make live; probation then reports an error if and only if a
      recorded rollback has lost its target or a rollback finds no install state.
      The start ends at the previous version if and only if probation decides for
      it and its directory is there, or that version was to be live anyway; and
      where it ends, the directory is as whole as it was found, unless it was one
      to be collected that would not go. All of it is read off the root it
      finds. */
  ghost predicate ComesTo(r: Root, w: World) {
    && (Started(r, w) <==> Lives(r).Some?) && (Concluded(r, w) ==> Started(r, w))
    && (Lives(r).Some? ==> EndsAs(r, w, After(r, Start(r, w)), Concluded(r, w)))
  }

  predicate EndsAs(r: Root, w: World, end: Root, settled: bool)
    requires Lives(r).Some?
  {
    var back := Decides(r).Reverts? && There(r, w.sweep, Previous(r));
    && end.current == (if back then Previous(r) else Lives(r).value)
    && (settled <==>
          (Decides(r).Reverts? ==>
             if back then Waiting(r) || InstallAfter(r).Some? else r.probation.value.status != Reverting))
    && (back && settled && Proper(r) ==> WentBack(ReversalOf(r, w), end))
    && (!back ==> SameProgress(r, end))
    && (Proper(r) ==> (Whole(end, end.current) <==> Whole(r, end.current) && Untaken(r, w.sweep, end.current)))
  }

  /** The probation record, if there is one, is of a version that replaced
      another. */
  predicate Proper(r: Root) {
    r.probation.Some? ==> r.probation.value.version != r.probation.value.previous
  }

  /** The rollback a start with the lock would make. */
  function ReversalOf(r: Root, w: World): Reversal
    requires r.probation.Some? && Lives(r).Some? && Decides(r).Reverts?
  {
    Reversal(r.probation.value.version, Previous(r), Decides(r).reason,
             Whole(r, Previous(r)) && Untaken(r, w.sweep, Previous(r)))
  }

  /** The probation record has not become that of a rollback that is done. */
  predicate SameProgress(r: Root, r': Root) {
    && r'.probation.Some? == r.probation.Some?
    && (r.probation.Some? ==> r'.probation.value.status == Reverted ==> r.probation.value.status == Reverted)
  }

  lemma StartOutcome(r: Root, w: World)
    requires Filed(r) && Free(w)
    ensures ComesTo(r, w)
  {
    PrepareResult(r, w.sweep);
    StartIsPrepareThenSettle(r, w);
    var p := Prepare(r, w.sweep);
    if p.ok {
      var x := After(r, p);
      AfterThen(r, p, Settle(x, false));
      SettleOutcome(x);
      ReadyEnds(r, w, x, After(x, Settle(x, false)), Settle(x, false).ok);
    }
  }

  /** From the root it settles on to the root it found. */
  lemma ReadyEnds(r: Root, w: World, x: Root, end: Root, settled: bool)
    requires Filed(r) && Ready(r, w.sweep, x) && SettlesAs(x, end, settled)
    ensures EndsAs(r, w, end, settled)
  {
    assert Decide(x) == Decides(r);
    assert Whole(x, end.current) <==> Whole(r, end.current) && Untaken(r, w.sweep, end.current) by {
      ReadyWhole(r, w.sweep, x, end.current);
    }
    if Decides(r).Reverts? && Previous(r) in x.dirs {
      ReadyWhole(r, w.sweep, x, Previous(r));
    }
  }

  lemma ReadyWhole(r: Root, s: Sweep, x: Root, p: Version)
    requires Ready(r, s, x) && (p == x.current || p in x.dirs)
    ensures Whole(x, p) <==> Whole(r, p) && Untaken(r, s, p)
  {
    assert p in x.dirs <==> There(r, s, p);
  }

  /** What probation comes to on a root that is ready for it. */
  predicate SettlesAs(r: Root, end: Root, settled: bool) {
    var back := Decide(r).Reverts? && Previous(r) in r.dirs;
    && end.current == (if back then Previous(r) else r.current)
    && (settled <==>
          (Decide(r).Reverts? ==> if back then r.install.Some? else r.probation.value.status != Reverting))
    && (back && r.install.Some? && Proper(r) ==>
          WentBack(Reversal(r.probation.value.version, Previous(r), Decide(r).reason, r.dirs[Previous(r)]), end))
    && (!back ==> SameProgress(r, end))
    && (Proper(r) ==> (Whole(end, end.current) <==> Whole(r, end.current)))
  }

  lemma SettleOutcome(r: Root)
    ensures SettlesAs(r, After(r, Settle(r, false)), Settle(r, false).ok)
  {
    match Decide(r)
    case Idle =>
    case Counted => ExecOne(r, Settle(r, false).writes[0]);
    case Restarted => ExecOne(r, Settle(r, false).writes[0]);
    case Reverts(reason) => RevertOutcome(r, reason);
  }

  lemma RevertOutcome(r: Root, reason: string)
    requires Decide(r) == Reverts(reason)
    ensures var p := Revert(r, r.probation.value, reason); SettlesAs(r, After(r, p), p.ok)
  {
    var q := r.probation.value;
    if q.previous !in r.dirs {
      if q.status != Reverting {
        ExecOne(r, PutProbation(Stays(q, reason)));
      }
    } else if r.install.Some? {
      RevertResult(r, q, reason);
    } else {
      RevertPoints(r, q, reason);
    }
  }

  /** Without an install state a rollback stops behind the moved pointer. */
  lemma RevertPoints(r: Root, p: Probation, reason: string)
    requires p.previous in r.dirs && r.install.None?
    ensures !Revert(r, p, reason).ok
    ensures var end := After(r, Revert(r, p, reason));
            && end.current == p.previous && end.dirs == r.dirs
            && (r.probation == Some(p) ==>
                  end.probation == Some(p.(status := Reverting, reason := if p.status == Reverting then p.reason else reason)))
  {
    var q := p.(status := Reverting, reason := reason);
    var p1 := if p.status == Reverting then DONE else One(PutProbation(q));
    var r1 := After(r, p1);
    var rest := Then(RestoreInstall(r, p.previous),
                     Then(One(PutProbation(Gone(p, reason))), RemoveVersion(p.version)));
    assert rest == REFUSED;
    ExecOne(r, PutProbation(q));
    ExecOne(r1, Point(p.previous));
    AfterThen(r1, One(Point(p.previous)), rest);
    AfterThen(r, p1, Then(One(Point(p.previous)), rest));
  }
}
