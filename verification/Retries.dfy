/** Starts that are interrupted and tried again: what the one that completes
    comes to, and exactly when a rollback converges. */
module Retries {
  import opened Bytes
  import opened Journal
  import opened Install
  import opened Txn
  import opened Trial
  import opened Apply
  import opened Launch
  import Machine

  /** A start, cut after some of its writes. */
  datatype Try = Try(w: World, cut: nat)

  ghost function Retry(r: Root, tries: seq<Try>): Root
    decreases |tries|
  {
    if tries == [] then r else Retry(Cut(r, Start(r, tries[0].w), tries[0].cut), tries[1..])
  }

  /** Whatever starts were cut wherever, the one that completes comes to what the
      root it finds says. */
  lemma {:induction false} StartsOutcome(r: Root, tries: seq<Try>, w: World)
    requires Machine.Sane(r) && Free(w)
    ensures Machine.Sane(Retry(r, tries)) && ComesTo(Retry(r, tries), w)
    decreases |tries|
  {
    if tries == [] {
      StartOutcome(r, w);
    } else {
      var p := Start(r, tries[0].w);
      var n := if tries[0].cut < |p.writes| then tries[0].cut else |p.writes|;
      Machine.StartGuarded(r, tries[0].w);
      Machine.GuardedPrefix(r, p.writes, n);
      Machine.GuardedSane(r, p.writes[..n]);
      StartsOutcome(Cut(r, p, tries[0].cut), tries[1..], w);
    }
  }

  // A rollback that stays on course.

  /** A start with the lock goes back from here, for the reason given, and nothing
      it does first takes the version to go back to. */
  predicate Ends(v: Reversal, r: Root) {
    && Lives(r).Some? && Decides(r) == Reverts(v.reason) && v.previous in DirsAfter(r)
    && (Waiting(r) ==> r.probation.value.status != Reverted)
  }

  /** It does, and would behind the first record of a deferred update too. */
  ghost predicate OnCourse(v: Reversal, r: Root) {
    && Filed(r) && Concerns(v, r) && Ends(v, r)
    && (Waiting(r) ==> Ends(v, Migrating(r)))
  }

  ghost predicate IsBack(v: Reversal, r: Root) {
    Filed(r) && WentBack(v, r) && Resting(r) && !Waiting(r)
  }

  ghost predicate Steady(v: Reversal, waits: bool, r: Root) {
    (OnCourse(v, r) || IsBack(v, r)) && (Waiting(r) ==> waits)
  }

  ghost function SteadyAs(v: Reversal, waits: bool): Root -> bool {
    (r: Root) => Steady(v, waits, r)
  }

  /** Only what waits and litter differ, so the course is the same. */
  lemma SameCourse(v: Reversal, r: Root, r': Root)
    requires OnCourse(v, r) && SameInstall(r, r')
    ensures OnCourse(v, r')
  {
    if Waiting(r) {
      assert Ends(v, Migrating(r')) by {
        assert Migrating(r').journal == Migrating(r).journal;
      }
    }
  }

  lemma {:induction false} HousekeepingSteady(v: Reversal, waits: bool, r: Root, ws: seq<Write>)
    requires Steady(v, waits, r)
    requires forall i :: 0 <= i < |ws| ==> ws[i] in {DropNext, SweepPending, SweepStaging} || ws[i].Promote?
    ensures Always(SteadyAs(v, waits), r, ws)
    decreases |ws|
  {
    if ws != [] {
      if OnCourse(v, r) {
        SameCourse(v, r, Do(r, ws[0]));
      }
      HousekeepingSteady(v, waits, Do(r, ws[0]), ws[1..]);
    }
  }

  /** A root nothing is unresolved on, with a version live that probation takes
      back. */
  lemma RestingCourse(v: Reversal, r: Root)
    requires Filed(r) && Resting(r) && !Waiting(r)
    ensures OnCourse(v, r) <==> GoingBack(v, r)
    ensures Lives(r) == Some(r.current)
  {
  }

  // Recovery stays on course.

  lemma UndoSteady(v: Reversal, waits: bool, r: Root)
    requires OnCourse(v, r) && Undoing(r)
    ensures Always(SteadyAs(v, waits), r, Undo(r, Last(r.journal)).writes)
  {
    var t := Last(r.journal);
    var p1 := RestorePointer(r, t);
    var p2 := if t.to != t.from then RemoveVersion(t.to) else DONE;
    var p3 := Note(r, t.(state := RolledBack));
    var r1 := r.(current := t.from);
    RestoreResult(r, t);
    assert OnCourse(v, r1);
    if p1.writes != [] {
      AlwaysOne(SteadyAs(v, waits), r, p1.writes[0]);
      assert p1.writes == [p1.writes[0]];
    }
    UndoneSteady(v, waits, r1);
    assert Note(r1, t.(state := RolledBack)) == p3;
    AlwaysThen(SteadyAs(v, waits), r, p1, Then(p2, Then(p3, CleanOrphans())));
  }

  lemma UndoneSteady(v: Reversal, waits: bool, r: Root)
    requires OnCourse(v, r) && r.journal != [] && r.current == Last(r.journal).from
    requires Last(r.journal).state in {Begin, Staged, Migrated}
    requires Last(r.journal).to != Last(r.journal).from ==> Last(r.journal).to != v.previous
    ensures var t := Last(r.journal);
            Always(SteadyAs(v, waits), r,
                   Then(if t.to != t.from then RemoveVersion(t.to) else DONE,
                        Then(Note(r, t.(state := RolledBack)), CleanOrphans())).writes)
  {
    var t := Last(r.journal);
    var p2 := if t.to != t.from then RemoveVersion(t.to) else DONE;
    var rest := Then(Note(r, t.(state := RolledBack)), CleanOrphans());
    var r2 := UnmakeSteady(v, waits, r);
    assert Note(r2, t.(state := RolledBack)) == Note(r, t.(state := RolledBack));
    NotedSteady(v, waits, r2);
    AlwaysThen(SteadyAs(v, waits), r, p2, rest);
  }

  /** Taking a directory other than the previous version's changes nothing. */
  lemma CourseWithout(v: Reversal, r: Root, u: Version)
    requires OnCourse(v, r) && r.journal != [] && r.current == Last(r.journal).from
    requires Last(r.journal).state in {Begin, Staged, Migrated} && u != v.previous
    ensures OnCourse(v, Do(r, Tear(u))) && OnCourse(v, r.(dirs := r.dirs - {u}))
    ensures Do(Do(r, Tear(u)), Drop(u)) == r.(dirs := r.dirs - {u})
  {
    assert Do(Do(r, Tear(u)), Drop(u)).dirs == r.dirs - {u};
  }

  lemma UnmakeSteady(v: Reversal, waits: bool, r: Root) returns (r': Root)
    requires OnCourse(v, r) && r.journal != [] && r.current == Last(r.journal).from
    requires Last(r.journal).state in {Begin, Staged, Migrated}
    requires Last(r.journal).to != Last(r.journal).from ==> Last(r.journal).to != v.previous
    ensures var t := Last(r.journal);
            var p := if t.to != t.from then RemoveVersion(t.to) else DONE;
            && r' == After(r, p) && Always(SteadyAs(v, waits), r, p.writes)
    ensures r' == r.(dirs := r'.dirs) && OnCourse(v, r')
  {
    var t := Last(r.journal);
    r' := r;
    if t.to != t.from {
      CourseWithout(v, r, t.to);
      AlwaysTwo(SteadyAs(v, waits), r, Tear(t.to), Drop(t.to));
      r' := r.(dirs := r.dirs - {t.to});
    }
  }

  lemma NotedSteady(v: Reversal, waits: bool, r: Root)
    requires Filed(r) && Concerns(v, r) && r.journal != [] && r.current == Last(r.journal).from
    requires Decide(r) == Reverts(v.reason) && Steady(v, waits, r)
    requires Last(r.journal).state in {Begin, Staged, Migrated}
    ensures Always(SteadyAs(v, waits), r, Then(Note(r, Last(r.journal).(state := RolledBack)), CleanOrphans()).writes)
  {
    var t := Last(r.journal).(state := RolledBack);
    NoteKeeps(r, RolledBack);
    var r1 := r.(journal := r.journal + [t]);
    RestingCourse(v, r1);
    AlwaysOne(SteadyAs(v, waits), r, SetJournal(r1.journal));
    HousekeepingSteady(v, waits, r1, CleanOrphans().writes);
    AlwaysThen(SteadyAs(v, waits), r, Note(r, t), CleanOrphans());
  }

  lemma SwappedSteady(v: Reversal, waits: bool, r: Root, t: Record)
    requires OnCourse(v, r) && Finishing(r) && Last(r.journal).state == Swapped && SameTransaction(t, Last(r.journal))
    ensures Always(SteadyAs(v, waits), r, CompleteSwapped(r, t).writes)
  {
    var committed := t.(state := Committed);
    assert committed == Last(r.journal).(state := Committed);
    var i := InstallState(t.name, t.to);
    var r1 := r.(install := Some(i));
    AlwaysOne(SteadyAs(v, waits), r, PutInstall(i));
    NoteKeeps(r, Committed);
    NoteKeeps(r1, Committed);
    var r2 := r1.(journal := r.journal + [committed]);
    RestingCourse(v, r2);
    AlwaysOne(SteadyAs(v, waits), r1, SetJournal(r2.journal));
    var settle := SettleCommitted(r, committed);
    HousekeepingSteady(v, waits, r2, settle.writes);
    AlwaysThen(SteadyAs(v, waits), r1, Note(r, committed), settle);
    AlwaysThen(SteadyAs(v, waits), r, One(PutInstall(i)), Then(Note(r, committed), settle));
  }

  lemma FinishSteady(v: Reversal, waits: bool, r: Root)
    requires OnCourse(v, r) && Finishing(r)
    ensures Always(SteadyAs(v, waits), r, Complete(r, Last(r.journal)).writes)
  {
    var t := Last(r.journal);
    if t.state == Swapped {
      SwappedSteady(v, waits, r, t);
    } else {
      NoteKeeps(r, Swapped);
      var r1 := r.(journal := r.journal + [t.(state := Swapped)]);
      AlwaysOne(SteadyAs(v, waits), r, SetJournal(r1.journal));
      SwappedSteady(v, waits, r1, t);
      AlwaysThen(SteadyAs(v, waits), r, Note(r, t.(state := Swapped)), CompleteSwapped(r1, t));
    }
  }

  lemma RecoverSteady(v: Reversal, waits: bool, r: Root)
    requires Steady(v, waits, r)
    ensures Recover(r).ok && Always(SteadyAs(v, waits), r, Recover(r).writes)
    ensures Landed(r, After(r, Recover(r))) && Steady(v, waits, After(r, Recover(r)))
  {
    RecoverExactly(r);
    if r.journal == [] || Last(r.journal).state in {Committed, RolledBack, Deferred} {
      HousekeepingSteady(v, waits, r, Recover(r).writes);
    } else if Undoing(r) {
      UndoSteady(v, waits, r);
    } else {
      FinishSteady(v, waits, r);
    }
    AlwaysCut(SteadyAs(v, waits), r, Recover(r), 0);
  }

  // So does a deferred update, and the collection behind it.

  /** From the moved pointer on. */
  lemma SwapSteady(v: Reversal, r: Root)
    requires OnCourse(v, r) && Waiting(r)
    ensures var t, r2 := Last(r.journal), Migrating(r).(current := Last(r.journal).to);
            var swapped := Note(r2, t.(state := Swapped));
            && OnCourse(v, r2)
            && Always(SteadyAs(v, true), r2, Then(swapped, Complete(After(r2, swapped), t.(state := Swapped))).writes)
  {
    var t, r2 := Last(r.journal), Migrating(r).(current := Last(r.journal).to);
    ResumeParts(r);
    assert OnCourse(v, r2);
    SwappingFiled(r);
    var r3 := Swapping(r);
    AlwaysOne(SteadyAs(v, true), r2, SetJournal(r3.journal));
    FinishSteady(v, true, r3);
    AlwaysThen(SteadyAs(v, true), r2, Note(r2, t.(state := Swapped)), Complete(r3, t.(state := Swapped)));
  }

  lemma ResumeSteady(v: Reversal, r: Root)
    requires OnCourse(v, r) && Waiting(r)
    ensures ResumeDeferred(r).ok && Always(SteadyAs(v, true), r, ResumeDeferred(r).writes)
    ensures var r' := After(r, ResumeDeferred(r)); OnCourse(v, r') && Resting(r') && !Waiting(r')
  {
    var t := Last(r.journal);
    ResumeParts(r);
    ResumeResult(r);
    var r1 := Migrating(r);
    var first := SetJournal(r1.journal);
    AlwaysOne(SteadyAs(v, true), r, first);
    var r2 := r1.(current := t.to);
    SwapSteady(v, r);
    AlwaysOne(SteadyAs(v, true), r1, Point(t.to));
    var swapped := Note(r2, t.(state := Swapped));
    var rest := Then(swapped, Complete(After(r2, swapped), t.(state := Swapped)));
    AlwaysThen(SteadyAs(v, true), r1, One(Point(t.to)), rest);
    AlwaysThen(SteadyAs(v, true), r, One(first), Then(One(Point(t.to)), rest));
    var r4 := After(r, ResumeDeferred(r));
    RestingCourse(v, r4);
  }

  lemma RemovalSteady(v: Reversal, r: Root, u: Version, keep: set<Version>, stuck: set<Version>)
    requires OnCourse(v, r) && Resting(r) && !Waiting(r) && v.previous in keep
    ensures var ws := Removal(u, keep, stuck);
            && Always(SteadyAs(v, true), r, ws)
            && OnCourse(v, Exec(r, ws)) && Resting(Exec(r, ws)) && !Waiting(Exec(r, ws))
  {
    if u !in keep {
      var torn := Do(r, Tear(u));
      RestingCourse(v, r);
      RestingCourse(v, torn);
      RestingCourse(v, Do(torn, Drop(u)));
      if u in stuck {
        AlwaysOne(SteadyAs(v, true), r, Tear(u));
      } else {
        AlwaysTwo(SteadyAs(v, true), r, Tear(u), Drop(u));
      }
    }
  }

  lemma {:induction false} RemovalsSteady(v: Reversal, r: Root, listing: seq<Version>, keep: set<Version>, stuck: set<Version>)
    requires OnCourse(v, r) && Resting(r) && !Waiting(r) && v.previous in keep
    ensures var ws := Removals(listing, keep, stuck);
            && Always(SteadyAs(v, true), r, ws)
            && OnCourse(v, Exec(r, ws)) && Resting(Exec(r, ws)) && !Waiting(Exec(r, ws))
    decreases |listing|
  {
    if listing != [] {
      var u := listing[0];
      var ws, rest := Removal(u, keep, stuck), Removals(listing[1..], keep, stuck);
      RemovalSteady(v, r, u, keep, stuck);
      RemovalsSteady(v, Exec(r, ws), listing[1..], keep, stuck);
      AlwaysConcat(SteadyAs(v, true), r, ws, rest);
      ExecConcat(r, ws, rest);
    }
  }

  lemma CollectSteady(v: Reversal, r: Root, s: Sweep)
    requires OnCourse(v, r) && Resting(r) && !Waiting(r) && r.probation.value.status != Reverted
    ensures Always(SteadyAs(v, true), r, Collect(r, s).writes)
    ensures var r' := After(r, Collect(r, s)); OnCourse(v, r') && Resting(r') && !Waiting(r')
  {
    RestingCourse(v, r);
    if r.current != "" {
      RemovalsSteady(v, r, s.listing, {r.current} + Pins(r) + s.window, s.stuck);
    }
  }

  // And the rollback itself.

  lemma {:induction false} OnTheWayIsSteady(v: Reversal, waits: bool, r0: Root, r: Root, ws: seq<Write>)
    requires Always(OnTheWay(v, r0), r, ws) && Filed(r) && Resting(r) && !Waiting(r) && r.journal == r0.journal
    ensures Always(SteadyAs(v, waits), r, ws)
    decreases |ws|
  {
    RestingCourse(v, r);
    if ws != [] {
      var r' := Do(r, ws[0]);
      assert OnTheWayBack(v, r0, r') by {
        assert Always(OnTheWay(v, r0), r', ws[1..]);
      }
      OnTheWayIsSteady(v, waits, r0, r', ws[1..]);
    }
  }

  lemma SettleSteady(v: Reversal, waits: bool, r: Root, running: bool)
    requires Steady(v, waits, r) && Resting(r) && !Waiting(r)
    ensures Always(SteadyAs(v, waits), r, Settle(r, running).writes)
    ensures !running ==> Settle(r, running).ok && WentBack(v, After(r, Settle(r, running)))
  {
    RestingCourse(v, r);
    if GoingBack(v, r) && !running {
      RevertKeeps(v, r);
      OnTheWayIsSteady(v, waits, r, r, Settle(r, running).writes);
    }
  }

  /** A start keeps a rollback on course at every one of its writes, provided it
      does not skip an update that waits; and if it also gets the lock to go back,
      it is back. */
  lemma StartSteady(v: Reversal, waits: bool, r: Root, w: World)
    requires Steady(v, waits, r) && (waits ==> w.resumes)
    ensures Always(SteadyAs(v, waits), r, Start(r, w).writes)
    ensures Free(w) ==> Start(r, w).ok && WentBack(v, After(r, Start(r, w)))
  {
    var recovered := Recover(r);
    RecoverSteady(v, waits, r);
    var r1 := After(r, recovered);
    if Waiting(r1) {
      ResumedSteady(v, r1, w);
    } else {
      SettleSteady(v, waits, r1, !w.reverts);
    }
    AlwaysThen(SteadyAs(v, waits), r, recovered, Continue(r1, w));
    AfterThen(r, recovered, Continue(r1, w));
  }

  lemma ResumedSteady(v: Reversal, r: Root, w: World)
    requires OnCourse(v, r) && Waiting(r) && w.resumes
    ensures var p := Continue(r, w);
            Always(SteadyAs(v, true), r, p.writes) && p.ok && WentBack(v, After(r, p))
  {
    var resumed := ResumeDeferred(r);
    ResumeSteady(v, r);
    ResumeResult(r);
    var r1 := After(r, resumed);
    var swept := Collect(r1, w.sweep);
    CollectSteady(v, r1, w.sweep);
    var r2 := After(r1, swept);
    var settled := Settle(r2, false);
    SettleSteady(v, true, r2, false);
    AlwaysThen(SteadyAs(v, true), r1, swept, settled);
    AfterThen(r1, swept, settled);
    AlwaysThen(SteadyAs(v, true), r, resumed, Then(swept, settled));
    AfterThen(r, resumed, Then(swept, settled));
  }

  // Convergence.

  /** A start that completes from here goes back. */
  ghost predicate Reaches(v: Reversal, r: Root, w: World) {
    Concluded(r, w) && WentBack(v, After(r, Start(r, w)))
  }

  predicate NoneSkips(tries: seq<Try>) {
    forall i :: 0 <= i < |tries| ==> tries[i].w.resumes
  }

  lemma {:induction false} RevertConverges(v: Reversal, waits: bool, r: Root, tries: seq<Try>, w: World)
    requires Steady(v, waits, r) && (waits ==> NoneSkips(tries)) && Free(w)
    ensures Reaches(v, Retry(r, tries), w)
    decreases |tries|
  {
    if tries == [] {
      StartSteady(v, waits, r, w);
    } else {
      StartSteady(v, waits, r, tries[0].w);
      AlwaysCut(SteadyAs(v, waits), r, Start(r, tries[0].w), tries[0].cut);
      RevertConverges(v, waits, Cut(r, Start(r, tries[0].w), tries[0].cut), tries[1..], w);
    }
  }

  const NOTHING_SWEPT := Sweep({}, [], {})
  const LOCKED := World(true, true, NOTHING_SWEPT)

  /** What a start that goes back needs. */
  lemma ReachesEnds(v: Reversal, r: Root)
    requires Filed(r) && r.probation.Some? && r.probation.value.status != Reverted
    requires r.probation.value.version == v.version && r.probation.value.previous == v.previous
    requires v.version != v.previous && Reaches(v, r, LOCKED)
    ensures Ends(v, r)
  {
    StartOutcome(r, LOCKED);
  }

  lemma FirstWriteOfResume(r: Root, w: World)
    requires Filed(r) && Waiting(r) && w.resumes
    ensures Cut(r, Start(r, w), 1) == Migrating(r)
  {
    ResumeParts(r);
    var first := SetJournal(Migrating(r).journal);
    var ws := Start(r, w).writes;
    assert ws[0] == first;
    assert ws[..1] == [first];
    ExecOne(r, first);
  }

  /** However many starts are cut wherever, the next that gets the lock goes
      back. */
  ghost predicate Converges(v: Reversal, r: Root, skips: bool) {
    forall tries, w :: (skips || NoneSkips(tries)) && Free(w) ==> ReachesBehind(v, r, tries, w)
  }

  ghost predicate ReachesBehind(v: Reversal, r: Root, tries: seq<Try>, w: World) {
    Reaches(v, Retry(r, tries), w)
  }

  lemma ConvergesNow(v: Reversal, r: Root, skips: bool)
    requires Converges(v, r, skips)
    ensures Reaches(v, r, LOCKED)
  {
    assert NoneSkips([]) && Free(LOCKED);
    assert ReachesBehind(v, r, [], LOCKED);
  }

  lemma ConvergesBehind(v: Reversal, r: Root, skips: bool, t: Try)
    requires Converges(v, r, skips) && (skips || t.w.resumes)
    ensures Reaches(v, Cut(r, Start(r, t.w), t.cut), LOCKED)
  {
    assert (skips || NoneSkips([t])) && Free(LOCKED);
    assert ReachesBehind(v, r, [t], LOCKED);
    RetryOnce(r, t);
  }

  lemma RetryOnce(r: Root, t: Try)
    ensures Retry(r, [t]) == Cut(r, Start(r, t.w), t.cut)
  {
    assert [t][1..] == [] && [t][0] == t;
    assert Retry(r, [t]) == Retry(Cut(r, Start(r, t.w), t.cut), [t][1..]);
  }

  lemma ConvergesIf(v: Reversal, r: Root, skips: bool)
    requires Filed(r) && Concerns(v, r) && Ends(v, r)
    requires if skips then !Waiting(r) else Waiting(r) ==> Ends(v, Migrating(r))
    ensures Converges(v, r, skips)
  {
    assert Steady(v, !skips, r);
    forall tries, w | (skips || NoneSkips(tries)) && Free(w)
      ensures ReachesBehind(v, r, tries, w)
    {
      RevertConverges(v, !skips, r, tries, w);
    }
  }

  /** A rollback that is decided or under way, with starts that do not skip an
      update that waits: however many of them are cut wherever, the next that gets
      the lock ends at the previous version, if and only if a start with the lock
      would go back from where it stands, and from behind the first record of the
      update that waits. */
  lemma ConvergesExactly(v: Reversal, r: Root)
    requires Filed(r) && GoingBack(v, r) && r.probation.value.status != Reverted
    ensures Converges(v, r, false) <==> Ends(v, r) && (Waiting(r) ==> Ends(v, Migrating(r)))
  {
    if Converges(v, r, false) {
      ConvergesNow(v, r, false);
      ReachesEnds(v, r);
      if Waiting(r) {
        ConvergesBehind(v, r, false, Try(LOCKED, 1));
        FirstWriteOfResume(r, LOCKED);
        ResumeParts(r);
        ReachesEnds(v, Migrating(r));
      }
    } else if Ends(v, r) && (Waiting(r) ==> Ends(v, Migrating(r))) {
      ConvergesIf(v, r, false);
    }
  }

  // An update that waits for the very version to go back to.

  /** The rollback is on record or done, and the transaction in the journal, in
      whatever state, can only make the previous version live. */
  ghost predicate Homeward(v: Reversal, r: Root) {
    && Filed(r) && Concerns(v, r) && r.journal != [] && Last(r.journal).to == v.previous
    && (WentBack(v, r) || (r.probation.value.status == Reverting && r.probation.value.reason == v.reason))
    && (match Last(r.journal).state
        case Deferred => r.current == v.previous || Last(r.journal).from == v.previous
        case Migrated => r.current == v.previous || Last(r.journal).from == v.previous
        case Swapped => r.current == v.previous
        case Committed => true
        case RolledBack => true
        case _ => false)
  }

  ghost function Home(v: Reversal): Root -> bool {
    (r: Root) => Homeward(v, r)
  }

  lemma {:induction false} HousekeepingHome(v: Reversal, r: Root, ws: seq<Write>)
    requires Homeward(v, r)
    requires forall i :: 0 <= i < |ws| ==> ws[i] in {DropNext, SweepPending, SweepStaging} || ws[i].Promote?
    ensures Always(Home(v), r, ws)
    decreases |ws|
  {
    if ws != [] {
      HousekeepingHome(v, Do(r, ws[0]), ws[1..]);
    }
  }

  lemma SwappedHome(v: Reversal, r: Root, t: Record)
    requires Homeward(v, r) && Last(r.journal).state == Swapped && SameTransaction(t, Last(r.journal))
    ensures Always(Home(v), r, CompleteSwapped(r, t).writes)
  {
    var committed := t.(state := Committed);
    assert committed == Last(r.journal).(state := Committed);
    var i := InstallState(t.name, t.to);
    var r1 := r.(install := Some(i));
    AlwaysOne(Home(v), r, PutInstall(i));
    NoteKeeps(r, Committed);
    NoteKeeps(r1, Committed);
    var r2 := r1.(journal := r.journal + [committed]);
    AlwaysOne(Home(v), r1, SetJournal(r2.journal));
    var settle := SettleCommitted(r, committed);
    HousekeepingHome(v, r2, settle.writes);
    AlwaysThen(Home(v), r1, Note(r, committed), settle);
    AlwaysThen(Home(v), r, One(PutInstall(i)), Then(Note(r, committed), settle));
  }

  lemma FinishHome(v: Reversal, r: Root)
    requires Homeward(v, r) && Finishing(r)
    ensures Always(Home(v), r, Complete(r, Last(r.journal)).writes)
  {
    var t := Last(r.journal);
    if t.state == Swapped {
      SwappedHome(v, r, t);
    } else {
      NoteKeeps(r, Swapped);
      var r1 := r.(journal := r.journal + [t.(state := Swapped)]);
      AlwaysOne(Home(v), r, SetJournal(r1.journal));
      SwappedHome(v, r1, t);
      AlwaysThen(Home(v), r, Note(r, t.(state := Swapped)), CompleteSwapped(r1, t));
    }
  }

  /** Where recovery takes it back, it takes it back to where it was going. */
  lemma UndoHome(v: Reversal, r: Root)
    requires Homeward(v, r) && Undoing(r)
    ensures Always(Home(v), r, Undo(r, Last(r.journal)).writes)
  {
    var t := Last(r.journal);
    assert t.from == t.to == v.previous;
    var p1, p3 := RestorePointer(r, t), Note(r, t.(state := RolledBack));
    var r1 := r.(current := t.from);
    RestoreResult(r, t);
    AlwaysOne(Home(v), r, p1.writes[0]);
    assert p1.writes == [p1.writes[0]];
    NoteKeeps(r, RolledBack);
    NoteKeeps(r1, RolledBack);
    var r2 := r1.(journal := r.journal + [t.(state := RolledBack)]);
    AlwaysOne(Home(v), r1, SetJournal(r2.journal));
    HousekeepingHome(v, r2, CleanOrphans().writes);
    AlwaysThen(Home(v), r1, p3, CleanOrphans());
    var rest := Then(p3, CleanOrphans());
    assert Then(DONE, rest).writes == rest.writes by {
      assert [] + rest.writes == rest.writes;
    }
    AlwaysThen(Home(v), r, p1, Then(DONE, rest));
  }

  lemma RecoverHome(v: Reversal, r: Root)
    requires Homeward(v, r)
    ensures Recover(r).ok && Always(Home(v), r, Recover(r).writes)
    ensures Landed(r, After(r, Recover(r))) && Homeward(v, After(r, Recover(r)))
  {
    RecoverExactly(r);
    if Last(r.journal).state in {Committed, RolledBack, Deferred} {
      HousekeepingHome(v, r, Recover(r).writes);
    } else if Undoing(r) {
      UndoHome(v, r);
    } else {
      FinishHome(v, r);
    }
    AlwaysCut(Home(v), r, Recover(r), 0);
  }

  lemma ResumeHome(v: Reversal, r: Root)
    requires Homeward(v, r) && Waiting(r)
    ensures ResumeDeferred(r).ok && Always(Home(v), r, ResumeDeferred(r).writes)
    ensures var r' := After(r, ResumeDeferred(r));
            Homeward(v, r') && r'.current == v.previous && Resting(r') && !Waiting(r')
  {
    var t := Last(r.journal);
    ResumeParts(r);
    ResumeResult(r);
    var r1 := Migrating(r);
    var first := SetJournal(r1.journal);
    AlwaysOne(Home(v), r, first);
    var r2 := r1.(current := t.to);
    AlwaysOne(Home(v), r1, Point(t.to));
    var swapped := Note(r2, t.(state := Swapped));
    assert Last(r2.journal).(state := Swapped) == t.(state := Swapped);
    NoteKeeps(r2, Swapped);
    var r3 := r2.(journal := r2.journal + [t.(state := Swapped)]);
    AlwaysOne(Home(v), r2, SetJournal(r3.journal));
    FinishHome(v, r3);
    var rest := Complete(r3, t.(state := Swapped));
    AlwaysThen(Home(v), r2, swapped, rest);
    AlwaysThen(Home(v), r1, One(Point(t.to)), Then(swapped, rest));
    AlwaysThen(Home(v), r, One(first), Then(One(Point(t.to)), Then(swapped, rest)));
    AlwaysCut(Home(v), r, ResumeDeferred(r), 0);
  }

  lemma {:induction false} RemovalsHome(v: Reversal, r: Root, listing: seq<Version>, keep: set<Version>, stuck: set<Version>)
    requires Homeward(v, r) && v.previous in keep
    ensures var ws := Removals(listing, keep, stuck); Always(Home(v), r, ws) && Homeward(v, Exec(r, ws))
    decreases |listing|
  {
    if listing != [] {
      var u := listing[0];
      var ws, rest := Removal(u, keep, stuck), Removals(listing[1..], keep, stuck);
      if u !in keep {
        if u in stuck {
          AlwaysOne(Home(v), r, Tear(u));
        } else {
          AlwaysTwo(Home(v), r, Tear(u), Drop(u));
        }
      }
      RemovalsHome(v, Exec(r, ws), listing[1..], keep, stuck);
      AlwaysConcat(Home(v), r, ws, rest);
      ExecConcat(r, ws, rest);
    }
  }

  lemma {:induction false} OnTheWayIsHome(v: Reversal, r0: Root, r: Root, ws: seq<Write>)
    requires Always(OnTheWay(v, r0), r, ws) && Homeward(v, r0) && r0.probation.value.status == Reverting
    ensures Always(Home(v), r, ws)
    decreases |ws|
  {
    assert OnTheWayBack(v, r0, r);
    if ws != [] {
      OnTheWayIsHome(v, r0, Do(r, ws[0]), ws[1..]);
    }
  }

  lemma SettleHome(v: Reversal, r: Root, running: bool)
    requires Homeward(v, r)
    ensures Always(Home(v), r, Settle(r, running).writes)
    ensures !running ==> Settle(r, running).ok && WentBack(v, After(r, Settle(r, running)))
  {
    if !WentBack(v, r) && !running {
      RevertKeeps(v, r);
      OnTheWayIsHome(v, r, r, Settle(r, running).writes);
    }
  }

  lemma ResumedHome(v: Reversal, r: Root, w: World)
    requires Homeward(v, r) && Waiting(r) && w.resumes
    ensures var p := Continue(r, w);
            Always(Home(v), r, p.writes) && p.ok && WentBack(v, After(r, p))
  {
    var resumed := ResumeDeferred(r);
    ResumeHome(v, r);
    var r1 := After(r, resumed);
    var swept := Collect(r1, w.sweep);
    if r1.current != "" {
      RemovalsHome(v, r1, w.sweep.listing, {r1.current} + Pins(r1) + w.sweep.window, w.sweep.stuck);
    }
    var r2 := After(r1, swept);
    var settled := Settle(r2, false);
    SettleHome(v, r2, false);
    AlwaysThen(Home(v), r1, swept, settled);
    AfterThen(r1, swept, settled);
    AlwaysThen(Home(v), r, resumed, Then(swept, settled));
    AfterThen(r, resumed, Then(swept, settled));
  }

  lemma StartHome(v: Reversal, r: Root, w: World)
    requires Homeward(v, r)
    ensures Always(Home(v), r, Start(r, w).writes)
    ensures Free(w) ==> Reaches(v, r, w)
  {
    var recovered := Recover(r);
    RecoverHome(v, r);
    var r1 := After(r, recovered);
    if Waiting(r1) && w.resumes {
      ResumedHome(v, r1, w);
    } else {
      SettleHome(v, r1, !w.reverts);
    }
    AlwaysThen(Home(v), r, recovered, Continue(r1, w));
    AfterThen(r, recovered, Continue(r1, w));
    if Free(w) {
      StartOutcome(r, w);
    }
  }

  lemma {:induction false} HomewardConverges(v: Reversal, r: Root, tries: seq<Try>, w: World)
    requires Homeward(v, r) && Free(w)
    ensures Reaches(v, Retry(r, tries), w)
    decreases |tries|
  {
    if tries == [] {
      StartHome(v, r, w);
    } else {
      StartHome(v, r, tries[0].w);
      AlwaysCut(Home(v), r, Start(r, tries[0].w), tries[0].cut);
      HomewardConverges(v, Cut(r, Start(r, tries[0].w), tries[0].cut), tries[1..], w);
    }
  }

  /** Such an update only ever goes where the rollback goes. */
  lemma WaitingHome(v: Reversal, r: Root)
    requires Filed(r) && GoingBack(v, r) && Waiting(r) && Last(r.journal).to == v.previous
    requires Ends(v, r) && Ends(v, Migrating(r))
    ensures Homeward(v, r)
  {
    ResumeParts(r);
  }

  /** With starts that may skip a waiting update as well: if and only if none waits,
      or it is for the previous version itself and can be finished from here. A
      start that skips an update for another version, and goes back, leaves it to
      the next, which makes the deferred version live. */
  lemma ConvergesWhateverStarts(v: Reversal, r: Root)
    requires Filed(r) && GoingBack(v, r) && r.probation.value.status != Reverted
    ensures Converges(v, r, true)
            <==> Ends(v, r) && (Waiting(r) ==> Last(r.journal).to == v.previous && Ends(v, Migrating(r)))
  {
    if Converges(v, r, true) {
      ConvergesNow(v, r, true);
      ReachesEnds(v, r);
      if Waiting(r) {
        ConvergesBehind(v, r, true, Try(LOCKED, 1));
        FirstWriteOfResume(r, LOCKED);
        ResumeParts(r);
        ReachesEnds(v, Migrating(r));
        if Last(r.journal).to != v.previous {
          var t := SkippedStartLoses(v, r);
          ConvergesBehind(v, r, true, t);
        }
      }
    } else if Ends(v, r) && !Waiting(r) {
      ConvergesIf(v, r, true);
    } else if Ends(v, r) && Last(r.journal).to == v.previous && Ends(v, Migrating(r)) {
      ConvergesHome(v, r);
    }
  }

  lemma ConvergesHome(v: Reversal, r: Root)
    requires Filed(r) && GoingBack(v, r) && Waiting(r) && Last(r.journal).to == v.previous
    requires Ends(v, r) && Ends(v, Migrating(r))
    ensures Converges(v, r, true)
  {
    WaitingHome(v, r);
    forall tries, w | Free(w)
      ensures ReachesBehind(v, r, tries, w)
    {
      HomewardConverges(v, r, tries, w);
    }
  }

  /** A start that skips the waiting update, and goes back in full. */
  lemma SkipGoesBack(v: Reversal, r: Root, w: World) returns (x: Root)
    requires Filed(r) && GoingBack(v, r) && Waiting(r) && w == World(false, true, NOTHING_SWEPT)
    ensures x == Cut(r, Start(r, w), |Start(r, w).writes|) && Filed(x) && WentBack(v, x)
    ensures x.journal == r.journal && x.dirs == r.dirs - {v.version}
  {
    var p := Start(r, w);
    RevertResult(r, r.probation.value, v.reason);
    assert [] + Settle(r, false).writes == Settle(r, false).writes;
    assert p == Settle(r, false);
    assert p.writes[..|p.writes|] == p.writes;
    x := After(r, p);
  }

  /** A start that skips a waiting update for another version, and goes back in full:
      the next start ends at the deferred version, or does not start. */
  lemma SkippedStartLoses(v: Reversal, r: Root) returns (t: Try)
    requires Filed(r) && GoingBack(v, r) && Waiting(r) && Last(r.journal).to != v.previous
    ensures !t.w.resumes && WentBack(v, Cut(r, Start(r, t.w), t.cut))
    ensures forall w :: Free(w) ==> !Reaches(v, Cut(r, Start(r, t.w), t.cut), w)
    ensures Last(r.journal).to in r.dirs && Last(r.journal).to != v.version ==>
              (var x := Cut(r, Start(r, t.w), t.cut);
               forall w :: Free(w) ==> After(x, Start(x, w)).current == Last(r.journal).to)
  {
    t := Try(World(false, true, NOTHING_SWEPT), |Start(r, World(false, true, NOTHING_SWEPT)).writes|);
    var x := SkipGoesBack(v, r, t.w);
    forall w | Free(w)
      ensures !Reaches(v, x, w)
      ensures Last(r.journal).to in r.dirs && Last(r.journal).to != v.version ==>
                After(x, Start(x, w)).current == Last(r.journal).to
    {
      StartOutcome(x, w);
    }
  }

  // A rollback whose target is gone.

  predicate Stranded(r: Root) {
    && r.probation.Some? && r.probation.value.status == Reverting
    && r.probation.value.previous !in r.dirs
  }

  /** Nothing written here brings a directory or touches the record. */
  ghost predicate Harmless(p: Plan) {
    forall i :: 0 <= i < |p.writes| ==> !p.writes[i].Place? && !p.writes[i].PutProbation? && !p.writes[i].DropProbation?
  }

  lemma HarmlessThen(p: Plan, q: Plan)
    requires Harmless(p) && (p.ok ==> Harmless(q))
    ensures Harmless(Then(p, q))
  {
  }

  lemma {:induction false} HarmlessKeeps(r: Root, p: Plan, n: nat)
    requires Stranded(r) && Harmless(p) && n <= |p.writes|
    ensures Stranded(Exec(r, p.writes[..n]))
    decreases n
  {
    if n > 0 {
      var w := p.writes[0];
      HarmlessKeeps(Do(r, w), Plan(p.writes[1..], p.ok), n - 1);
      assert p.writes[..n][0] == w && p.writes[..n][1..] == p.writes[1..][..n - 1];
    }
  }

  lemma SwappedHarmless(r: Root, t: Record)
    ensures Harmless(CompleteSwapped(r, t))
  {
    var committed := t.(state := Committed);
    assert Harmless(SettleCommitted(r, committed));
    HarmlessThen(Note(r, committed), SettleCommitted(r, committed));
  }

  lemma UndoHarmless(r: Root, t: Record)
    ensures Harmless(Undo(r, t))
  {
    var p2 := if t.to != t.from then RemoveVersion(t.to) else DONE;
    var p3 := Note(r, t.(state := RolledBack));
    HarmlessThen(p3, CleanOrphans());
    HarmlessThen(p2, Then(p3, CleanOrphans()));
    HarmlessThen(RestorePointer(r, t), Then(p2, Then(p3, CleanOrphans())));
  }

  lemma CompleteHarmless(r: Root, t: Record)
    ensures Harmless(Complete(r, t))
  {
    var swapped := Note(r, t.(state := Swapped));
    SwappedHarmless(r, t);
    SwappedHarmless(After(r, swapped), t);
    HarmlessThen(swapped, CompleteSwapped(After(r, swapped), t));
  }

  lemma RecoverHarmless(r: Root)
    ensures Harmless(Recover(r))
  {
    if r.journal != [] {
      UndoHarmless(r, Last(r.journal));
      CompleteHarmless(r, Last(r.journal));
      SettleHarmless(r, Last(r.journal));
    }
  }

  lemma SettleHarmless(r: Root, t: Record)
    ensures Harmless(SettleCommitted(r, t)) && Harmless(CleanOrphans())
  {
  }

  lemma ResumeHarmless(r: Root)
    ensures Harmless(ResumeDeferred(r))
  {
    if r.journal != [] && Accepted(r.journal) && Last(r.journal).state == Deferred {
      var t := Last(r.journal);
      var p1 := Note(r, t.(state := Migrated));
      var p2 := if t.to in r.dirs then One(Point(t.to)) else REFUSED;
      var r2 := After(After(r, p1), p2);
      var p3 := Note(r2, t.(state := Swapped));
      var p4 := Complete(After(r2, p3), t.(state := Swapped));
      CompleteHarmless(After(r2, p3), t.(state := Swapped));
      HarmlessThen(p3, p4);
      HarmlessThen(p2, Then(p3, p4));
      HarmlessThen(p1, Then(p2, Then(p3, p4)));
    }
  }

  lemma {:induction false} RemovalsHarmless(listing: seq<Version>, keep: set<Version>, stuck: set<Version>)
    ensures Harmless(Plan(Removals(listing, keep, stuck), true))
    decreases |listing|
  {
    if listing != [] {
      RemovalsHarmless(listing[1..], keep, stuck);
      HarmlessThen(Plan(Removal(listing[0], keep, stuck), true), Plan(Removals(listing[1..], keep, stuck), true));
    }
  }

  lemma AllHarmless(r: Root, p: Plan)
    requires Stranded(r) && Harmless(p)
    ensures Stranded(After(r, p))
  {
    HarmlessKeeps(r, p, |p.writes|);
    assert p.writes[..|p.writes|] == p.writes;
  }

  lemma ContinueHarmless(r: Root, w: World)
    requires Stranded(r)
    ensures Harmless(Continue(r, w))
  {
    if Waiting(r) && w.resumes {
      var resumed := ResumeDeferred(r);
      ResumeHarmless(r);
      AllHarmless(r, resumed);
      var r1 := After(r, resumed);
      var swept := Collect(r1, w.sweep);
      RemovalsHarmless(w.sweep.listing, {r1.current} + Pins(r1) + w.sweep.window, w.sweep.stuck);
      AllHarmless(r1, swept);
      var settled := Settle(After(r1, swept), false);
      HarmlessThen(swept, settled);
      HarmlessThen(resumed, Then(swept, settled));
    }
  }

  lemma StartHarmless(r: Root, w: World)
    requires Stranded(r)
    ensures Harmless(Start(r, w))
  {
    RecoverHarmless(r);
    AllHarmless(r, Recover(r));
    ContinueHarmless(After(r, Recover(r)), w);
    HarmlessThen(Recover(r), Continue(After(r, Recover(r)), w));
  }

  /** Without the version to go back to, a recorded rollback is for good: however
      many starts there are and wherever they are cut, the record stays, and no
      start that gets the lock concludes: if it starts at all, probation reports an
      error. */
  lemma {:induction false} StrandedForGood(r: Root, tries: seq<Try>, w: World)
    requires Machine.Sane(r) && Stranded(r) && Free(w)
    ensures Stranded(Retry(r, tries)) && !Concluded(Retry(r, tries), w)
    decreases |tries|
  {
    StartsOutcome(r, tries, w);
    if tries != [] {
      var p := Start(r, tries[0].w);
      var n := if tries[0].cut < |p.writes| then tries[0].cut else |p.writes|;
      StartHarmless(r, tries[0].w);
      HarmlessKeeps(r, p, n);
      Machine.StartGuarded(r, tries[0].w);
      Machine.GuardedPrefix(r, p.writes, n);
      Machine.GuardedSane(r, p.writes[..n]);
      StrandedForGood(Cut(r, p, tries[0].cut), tries[1..], w);
    }
  }
}
