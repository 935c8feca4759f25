/** An update is all or nothing: cut anywhere, and its recovery cut anywhere as
    often as one likes, the recovery that completes leaves the new version
    committed, or the old one with no trace of the new, or nothing begun. */
module Atomicity {
  import opened Bytes
  import opened Journal
  import opened Install
  import opened Txn
  import opened Trial
  import opened Apply

  // After the commit.

  lemma RemovalKeeps(c: Brief, r: Root, v: Version, keep: set<Version>, stuck: set<Version>)
    requires Consistent(c, r) && Last(r.journal).state == Committed && c.to in keep
    requires v !in keep ==> v in c.swept
    ensures var ws := Removal(v, keep, stuck);
            Always(Inv(c), r, ws) && Consistent(c, Exec(r, ws)) && Exec(r, ws).journal == r.journal
  {
    if v !in keep {
      if v in stuck {
        AlwaysOne(Inv(c), r, Tear(v));
      } else {
        AlwaysTwo(Inv(c), r, Tear(v), Drop(v));
      }
    }
  }

  lemma {:induction false} RemovalsKeep(c: Brief, r: Root, listing: seq<Version>, keep: set<Version>, stuck: set<Version>)
    requires Consistent(c, r) && Last(r.journal).state == Committed && c.to in keep
    requires forall v :: v in listing && v !in keep ==> v in c.swept
    ensures var ws := Removals(listing, keep, stuck);
            Always(Inv(c), r, ws) && Exec(r, ws).journal == r.journal
    decreases |listing|
  {
    if listing != [] {
      var ws, rest := Removal(listing[0], keep, stuck), Removals(listing[1..], keep, stuck);
      RemovalKeeps(c, r, listing[0], keep, stuck);
      RemovalsKeep(c, Exec(r, ws), listing[1..], keep, stuck);
      AlwaysConcat(Inv(c), r, ws, rest);
      ExecConcat(r, ws, rest);
    }
  }

  lemma PromotionKeeps(c: Brief, r: Root, a: Request)
    requires Consistent(c, r) && Last(r.journal).state == Committed && a.to == c.to
    ensures Promotion(r, a).ok && Always(Inv(c), r, Promotion(r, a).writes)
    ensures After(r, Promotion(r, a)).journal == r.journal
  {
    var promote := PromoteLauncher(r, a.to);
    var p := Promotion(r, a);
    if a.to in r.pending {
      PromoteKeeps(c, r, a.to);
    }
    if a.failed.Some? {
      AlwaysPrefix(Inv(c), r, promote.writes, |p.writes|);
    } else {
      SettleKeeps(c, r);
      assert [] + CleanOrphans().writes == CleanOrphans().writes;
    }
    HousekeepingOnly(r, r, p.writes);
    AlwaysCut(SameAs(r), r, p, 0);
  }

  lemma TidyKeeps(c: Brief, r: Root, a: Request)
    requires Consistent(c, r) && Last(r.journal).state == Committed && a.to == c.to
    requires c.swept == SweptBy(c.probation, a.sweep)
    ensures Tidy(r, a).ok && Always(Inv(c), r, Tidy(r, a).writes)
    ensures After(r, Tidy(r, a)).journal == r.journal
  {
    var p := Promotion(r, a);
    PromotionKeeps(c, r, a);
    AlwaysCut(Inv(c), r, p, 0);
    var r1 := After(r, p);
    var q := Collect(r1, a.sweep);
    RemovalsKeep(c, r1, a.sweep.listing, {r1.current} + Pins(r1) + a.sweep.window, a.sweep.stuck);
    AlwaysThen(Inv(c), r, p, q);
    AfterThen(r, p, q);
  }

  // Up to the commit.

  /** What a stretch of the transaction guarantees: consistent at every point,
      and committed if it succeeds. */
  ghost predicate Sound(c: Brief, r: Root, p: Plan) {
    && Always(Inv(c), r, p.writes)
    && (p.ok ==> After(r, p).journal != [] && Last(After(r, p).journal).state == Committed)
  }

  lemma SoundThen(c: Brief, r: Root, p: Plan, q: Plan)
    requires Always(Inv(c), r, p.writes) && p.ok && Sound(c, After(r, p), q)
    ensures Sound(c, r, Then(p, q))
  {
    AlwaysThen(Inv(c), r, p, q);
    AfterThen(r, p, q);
  }

  predicate Speaks(c: Brief, a: Request, t: Record) {
    a.name == c.name && a.to == c.to && a.launcher == c.launcher
    && t.name == c.name && t.from == c.from && t.to == c.to
    && c.swept == SweptBy(c.probation, a.sweep)
  }

  lemma NoteOne(c: Brief, r: Root, t: Record, s: State)
    requires Consistent(c, r) && t.name == c.name && t.from == c.from && t.to == c.to
    requires s in Allowed(Last(r.journal).state) && s != Begin
    requires Consistent(c, r.(journal := r.journal + [t.(state := s)]))
    ensures var p := Note(r, t.(state := s));
            && p.ok && Always(Inv(c), r, p.writes)
            && After(r, p) == r.(journal := r.journal + [t.(state := s)])
  {
    NoteKeeps(r, s);
    assert Last(r.journal).(state := s) == t.(state := s);
    AlwaysOne(Inv(c), r, SetJournal(r.journal + [t.(state := s)]));
  }

  /** A history that may take the next state does, and is still a history. */
  lemma Appended(c: Brief, r: Root, t: Record, s: State)
    requires Consistent(c, r) && t.name == c.name && t.from == c.from && t.to == c.to
    requires s in Allowed(Last(r.journal).state) && s != Begin
    ensures var h := r.journal + [t.(state := s)]; Grown(h) && Last(h) == t.(state := s)
  {
    NoteKeeps(r, s);
    assert Last(r.journal).(state := s) == t.(state := s);
  }

  lemma CommitsKeep(c: Brief, r: Root, a: Request, t: Record)
    requires Consistent(c, r) && Last(r.journal).state == Swapped && Speaks(c, a, t)
    ensures Sound(c, r, Commit(r, a, t))
  {
    var i := InstallState(a.name, a.to);
    var r1 := r.(install := Some(i));
    AlwaysOne(Inv(c), r, PutInstall(i));
    Appended(c, r1, t, Committed);
    NoteOne(c, r1, t, Committed);
    var r2 := r1.(journal := r.journal + [t.(state := Committed)]);
    TidyKeeps(c, r2, a);
    SoundThen(c, r1, Note(r1, t.(state := Committed)), Tidy(r2, a));
    SoundThen(c, r, One(PutInstall(i)), Then(Note(r1, t.(state := Committed)), Tidy(r2, a)));
  }

  lemma SwitchKeeps(c: Brief, r: Root, a: Request, t: Record)
    requires Consistent(c, r) && Last(r.journal).state == Migrated && Speaks(c, a, t)
    requires r.current == c.from && Whole(r, c.to)
    ensures Sound(c, r, Switch(r, a, t))
  {
    var r1 := r.(current := a.to);
    AlwaysOne(Inv(c), r, Point(a.to));
    Appended(c, r1, t, Swapped);
    NoteOne(c, r1, t, Swapped);
    var r2 := r1.(journal := r.journal + [t.(state := Swapped)]);
    CommitsKeep(c, r2, a, t);
    SoundThen(c, r1, Note(r1, t.(state := Swapped)), Commit(r2, a, t));
    SoundThen(c, r, One(Point(a.to)), Then(Note(r1, t.(state := Swapped)), Commit(r2, a, t)));
  }

  lemma QuiesceKeeps(c: Brief, r: Root, a: Request, t: Record)
    requires Consistent(c, r) && Last(r.journal).state == Staged && Speaks(c, a, t)
    requires Whole(r, c.to)
    ensures Sound(c, r, Quiesce(r, a, t))
  {
    if a.defers {
      Appended(c, r, t, Deferred);
      NoteOne(c, r, t, Deferred);
      AlwaysThen(Inv(c), r, Note(r, t.(state := Deferred)), REFUSED);
    } else {
      Appended(c, r, t, Migrated);
      NoteOne(c, r, t, Migrated);
      var r1 := r.(journal := r.journal + [t.(state := Migrated)]);
      SwitchKeeps(c, r1, a, t);
      SoundThen(c, r, Note(r, t.(state := Migrated)), Switch(r1, a, t));
    }
  }

  // Staging.

  /** Before anything is staged, the staging area may look as it likes. */
  lemma BeginIgnores(c: Brief, r: Root, r': Root)
    requires Consistent(c, r) && Last(r.journal).state == Begin && SameInstall(r, r') && r'.next == r.next
    ensures Consistent(c, r')
  {
  }

  lemma ClearKeeps(c: Brief, r: Root, v: Version)
    requires Consistent(c, r) && Last(r.journal).state == Begin
    ensures var ws := [ClearStage(v), MakeStage(v), DropPending(v)];
            && Always(Inv(c), r, ws)
            && Exec(r, ws) == r.(staged := r.staged - {v} + {v}, pending := r.pending - {v})
  {
    var a, b := [ClearStage(v), MakeStage(v)], [DropPending(v)];
    var r1 := Do(r, ClearStage(v));
    var r2 := Do(r1, MakeStage(v));
    BeginIgnores(c, r, r1);
    BeginIgnores(c, r, r2);
    BeginIgnores(c, r, Do(r2, DropPending(v)));
    AlwaysTwo(Inv(c), r, ClearStage(v), MakeStage(v));
    AlwaysOne(Inv(c), r2, DropPending(v));
    AlwaysConcat(Inv(c), r, a, b);
    ExecConcat(r, a, b);
    assert a + b == [ClearStage(v), MakeStage(v), DropPending(v)];
  }

  lemma BuildKeeps(c: Brief, r: Root, a: Request, ws: seq<Write>)
    requires Consistent(c, r) && Last(r.journal).state == Begin && a.to == c.to && a.launcher == c.launcher
    requires ws == [ClearStage(a.to), MakeStage(a.to), DropPending(a.to)]
                   + (if a.launcher.Some? then [PutPending(a.to, a.launcher.value)] else [])
    ensures Always(Inv(c), r, ws)
    ensures var r' := Exec(r, ws);
            && SameInstall(r, r') && r'.next == r.next && PendingFor(r', a.to) == c.launcher
  {
    var front := [ClearStage(a.to), MakeStage(a.to), DropPending(a.to)];
    ClearKeeps(c, r, a.to);
    var r1 := Exec(r, front);
    if a.launcher.Some? {
      var w := PutPending(a.to, a.launcher.value);
      AlwaysOne(Inv(c), r1, w);
      AlwaysConcat(Inv(c), r, front, [w]);
      ExecConcat(r, front, [w]);
    } else {
      assert ws == front;
    }
  }

  /** The finished tree becomes a directory, or is taken back at once. */
  lemma PlaceKeeps(c: Brief, r: Root)
    requires Consistent(c, r) && Last(r.journal).state == Begin && c.to !in r.dirs
    ensures Always(Inv(c), r, [Place(c.to)]) && Exec(r, [Place(c.to)]) == Do(r, Place(c.to))
    ensures Always(Inv(c), r, [Place(c.to), Tear(c.to), Drop(c.to)])
  {
    AlwaysOne(Inv(c), r, Place(c.to));
    AlwaysTwo(Inv(c), Do(r, Place(c.to)), Tear(c.to), Drop(c.to));
    AlwaysConcat(Inv(c), r, [Place(c.to)], [Tear(c.to), Drop(c.to)]);
    assert [Place(c.to)] + [Tear(c.to), Drop(c.to)] == [Place(c.to), Tear(c.to), Drop(c.to)];
  }

  lemma StageKeeps(c: Brief, r: Root, a: Request)
    requires Consistent(c, r) && Last(r.journal).state == Begin && a.to == c.to && a.launcher == c.launcher
    ensures Always(Inv(c), r, Stage(r, a).writes)
    ensures Stage(r, a).ok ==>
              (var r' := After(r, Stage(r, a));
               && r'.journal == r.journal && Whole(r', c.to) && PendingFor(r', c.to) == c.launcher)
  {
    var p := Plan([ClearStage(a.to), MakeStage(a.to), DropPending(a.to)]
                  + (if a.launcher.Some? then [PutPending(a.to, a.launcher.value)] else []), true);
    BuildKeeps(c, r, a, p.writes);
    AlwaysCut(Inv(c), r, p, 0);
    var r1 := After(r, p);
    if a.to in r.dirs {
      AlwaysThen(Inv(c), r, p, REFUSED);
    } else {
      PlaceKeeps(c, r1);
      if a.flushed {
        AlwaysThen(Inv(c), r, p, One(Place(a.to)));
        AfterThen(r, p, One(Place(a.to)));
      } else {
        AlwaysThen(Inv(c), r, p, Plan([Place(a.to), Tear(a.to), Drop(a.to)], false));
      }
    }
  }

  lemma FillKeeps(c: Brief, r: Root, a: Request, t: Record)
    requires Consistent(c, r) && Last(r.journal).state == Begin && Speaks(c, a, t)
    ensures Sound(c, r, Fill(r, a, t))
  {
    var stage := Stage(r, a);
    StageKeeps(c, r, a);
    if stage.ok {
      AlwaysCut(Inv(c), r, stage, 0);
      var r1 := After(r, stage);
      Appended(c, r1, t, Staged);
      var r2 := r1.(journal := r1.journal + [t.(state := Staged)]);
      NoteOne(c, r1, t, Staged);
      QuiesceKeeps(c, r2, a, t);
      SoundThen(c, r1, Note(r1, t.(state := Staged)), Quiesce(r2, a, t));
      SoundThen(c, r, stage, Then(Note(r1, t.(state := Staged)), Quiesce(r2, a, t)));
    }
  }

  // The whole update.

  /** A root no transaction is running on, whatever happened to it before. */
  ghost predicate AtRest(r: Root) {
    Resting(r) && Grown(r.journal) && (r.current == "" || Whole(r, r.current))
  }

  /** Nothing was begun. All that may have changed is the probation record, which
      an update writes first. */
  predicate Untouched(r: Root, a: Request, r': Root) {
    && r'.journal == r.journal && r'.current == r.current && r'.dirs == r.dirs && r'.install == r.install
    && (r'.probation == r.probation || r'.probation == Armed(r, a.to, a.allow))
  }

  ghost function BriefOf(r: Root, a: Request): Brief {
    var probation := Armed(r, a.to, a.allow);
    Brief(a.name, r.current, a.to, a.launcher, After(r, Recover(r)).next, r.install, r.dirs, probation,
          SweptBy(probation, a.sweep))
  }

  /** The transaction was begun, and journal and tree agree about it. */
  ghost predicate Begun(r0: Root, a: Request, r: Root) {
    Arm(r0, a.to, a.allow).ok && Consistent(BriefOf(r0, a), r)
  }

  ghost predicate Reached(r0: Root, a: Request, r: Root) {
    Untouched(r0, a, r) || Begun(r0, a, r)
  }

  ghost function ReachedFrom(r0: Root, a: Request): Root -> bool {
    (r: Root) => Reached(r0, a, r)
  }

  ghost predicate Done(r0: Root, a: Request, r: Root) {
    Begun(r0, a, r) && Last(r.journal).state == Committed
  }

  /** Any history at rest may be replaced by a new one. */
  lemma BeginKeeps(r0: Root, a: Request, r: Root, t: Record)
    requires AtRest(r0) && a.name != "" && a.to != "" && a.to != r0.current
    requires Untouched(r0, a, r) && r.next == BriefOf(r0, a).next
    requires r.probation == BriefOf(r0, a).probation && t == Record(Begin, a.name, r.current, a.to)
    ensures Note(r, t) == One(SetJournal([t]))
    ensures Consistent(BriefOf(r0, a), r.(journal := [t]))
  {
    assert r.journal != [] ==> MayFollow(Last(r.journal), t);
    assert Append(r.journal, t) == Some([t]);
    assert Last([t]) == t && Grown([t]);
  }

  lemma TransactKeeps(r0: Root, a: Request, r: Root)
    requires AtRest(r0) && a.name != "" && a.to != "" && a.to != r0.current
    requires Untouched(r0, a, r) && r.next == BriefOf(r0, a).next && r.probation == BriefOf(r0, a).probation
    requires Arm(r0, a.to, a.allow).ok
    ensures Always(ReachedFrom(r0, a), r, Transact(r, a).writes)
    ensures Transact(r, a).ok ==> Done(r0, a, After(r, Transact(r, a)))
  {
    var c := BriefOf(r0, a);
    var t := Record(Begin, a.name, r.current, a.to);
    BeginKeeps(r0, a, r, t);
    var begun := One(SetJournal([t]));
    var r1 := r.(journal := [t]);
    AlwaysOne(ReachedFrom(r0, a), r, SetJournal([t]));
    FillKeeps(c, r1, a, t);
    var fill := Fill(r1, a, t);
    AlwaysCut(Inv(c), r1, fill, 0);
    AlwaysWeaken(Inv(c), ReachedFrom(r0, a), r1, fill.writes);
    AlwaysThen(ReachedFrom(r0, a), r, begun, fill);
    AfterThen(r, begun, fill);
  }

  /** At every point of an update the root is as it was, or the transaction in
      its journal is consistent. */
  lemma UpdateKeeps(r: Root, a: Request)
    requires AtRest(r) && a.name != "" && a.to != ""
    ensures Always(ReachedFrom(r, a), r, Update(r, a).writes)
    ensures Update(r, a).ok ==> Done(r, a, After(r, Update(r, a)))
  {
    var recovered := Recover(r);
    RestingRecovery(r);
    AlwaysWeaken(SameAs(r), ReachedFrom(r, a), r, recovered.writes);
    var r1 := After(r, recovered);
    var attempt := Attempt(r1, a);
    if !Refuses(r1, a) {
      ProceedKeeps(r, a, r1);
    }
    AlwaysThen(ReachedFrom(r, a), r, recovered, attempt);
    AfterThen(r, recovered, attempt);
  }

  lemma ProceedKeeps(r0: Root, a: Request, r: Root)
    requires AtRest(r0) && a.name != "" && a.to != "" && a.to != r0.current
    requires Untouched(r0, a, r) && r.next == BriefOf(r0, a).next && r.probation == r0.probation
    ensures Always(ReachedFrom(r0, a), r, Proceed(r, a).writes)
    ensures Proceed(r, a).ok ==> Done(r0, a, After(r, Proceed(r, a)))
  {
    var armed := Arm(r, a.to, a.allow);
    ArmKeeps(r0, a, r);
    var r1 := After(r, armed);
    if armed.ok {
      TransactKeeps(r0, a, r1);
      AfterThen(r, armed, Transact(r1, a));
    }
    AlwaysThen(ReachedFrom(r0, a), r, armed, Transact(r1, a));
  }

  lemma ArmKeeps(r0: Root, a: Request, r: Root)
    requires Untouched(r0, a, r) && r.probation == r0.probation
    ensures var armed := Arm(r, a.to, a.allow);
            && Always(ReachedFrom(r0, a), r, armed.writes)
            && Untouched(r0, a, After(r, armed)) && After(r, armed).next == r.next
            && After(r, armed).probation == Armed(r0, a.to, a.allow)
  {
    var armed := Arm(r, a.to, a.allow);
    if armed.writes != [] {
      AlwaysOne(ReachedFrom(r0, a), r, armed.writes[0]);
      assert armed.writes == [armed.writes[0]];
    }
  }

  // Recovering, however often it is interrupted.

  /** Recoveries that were each cut after some of their writes. */
  ghost function Recoveries(r: Root, cuts: seq<nat>): Root
    decreases |cuts|
  {
    if cuts == [] then r else Recoveries(Cut(r, Recover(r), cuts[0]), cuts[1..])
  }

  lemma {:induction false} PointerStays(r: Root, ws: seq<Write>)
    requires forall i :: 0 <= i < |ws| ==> !ws[i].Point? && (ws[i].Unpoint? ==> r.current == "")
    ensures Exec(r, ws).current == r.current
    decreases |ws|
  {
    if ws != [] {
      PointerStays(Do(r, ws[0]), ws[1..]);
    }
  }

  ghost predicate StaysPut(v: Version, p: Plan) {
    forall i :: 0 <= i < |p.writes| ==> !p.writes[i].Point? && (p.writes[i].Unpoint? ==> v == "")
  }

  lemma StaysPutThen(v: Version, p: Plan, q: Plan)
    requires StaysPut(v, p) && (p.ok ==> StaysPut(v, q))
    ensures StaysPut(v, Then(p, q))
  {
  }

  lemma SettleStaysPut(v: Version, r: Root, t: Record)
    ensures StaysPut(v, SettleCommitted(r, t))
  {
  }

  lemma CompleteStaysPut(v: Version, r: Root, t: Record)
    ensures StaysPut(v, CompleteSwapped(r, t))
  {
    var committed := t.(state := Committed);
    SettleStaysPut(v, r, committed);
    StaysPutThen(v, Note(r, committed), SettleCommitted(r, committed));
  }

  lemma UndoStaysPut(r: Root, t: Record)
    requires r.current == t.from
    ensures StaysPut(r.current, Undo(r, t))
  {
    var rest := Then(Note(r, t.(state := RolledBack)), CleanOrphans());
    StaysPutThen(r.current, RemoveVersion(t.to), rest);
  }

  lemma RecoveryLeavesPointer(c: Brief, r: Root, k: nat)
    requires Consistent(c, r)
    ensures Cut(r, Recover(r), k).current == r.current
  {
    var t, ws := Last(r.journal), Recover(r).writes;
    if t.state == Migrated && r.current == t.to {
      var swapped := Note(r, t.(state := Swapped));
      CompleteStaysPut(r.current, After(r, swapped), t);
      StaysPutThen(r.current, swapped, CompleteSwapped(After(r, swapped), t));
    } else if t.state == Swapped {
      CompleteStaysPut(r.current, r, t);
    } else if t.state == Committed {
      SettleStaysPut(r.current, r, t);
    } else if t.state in {Begin, Staged, Migrated} {
      UndoStaysPut(r, t);
    }
    assert StaysPut(r.current, Recover(r));
    PointerStays(r, ws[..if k < |ws| then k else |ws|]);
  }

  /** A transaction stays consistent through interrupted recoveries, and where
      `current` points does not change any more. */
  lemma {:induction false} RecoveriesKeep(c: Brief, r: Root, cuts: seq<nat>)
    requires Consistent(c, r)
    ensures Consistent(c, Recoveries(r, cuts)) && Recoveries(r, cuts).current == r.current
    decreases |cuts|
  {
    if cuts != [] {
      RecoverKeeps(c, r);
      AlwaysCut(Inv(c), r, Recover(r), cuts[0]);
      RecoveryLeavesPointer(c, r, cuts[0]);
      RecoveriesKeep(c, Cut(r, Recover(r), cuts[0]), cuts[1..]);
    }
  }

  lemma {:induction false} RecoveriesRest(r0: Root, a: Request, r: Root, cuts: seq<nat>)
    requires Resting(r0) && Untouched(r0, a, r)
    ensures Untouched(r0, a, Recoveries(r, cuts))
    decreases |cuts|
  {
    if cuts != [] {
      RestingRecovery(r);
      AlwaysCut(SameAs(r), r, Recover(r), cuts[0]);
      RecoveriesRest(r0, a, Cut(r, Recover(r), cuts[0]), cuts[1..]);
    }
  }

  lemma RestingIdempotent(r: Root)
    requires Resting(r)
    ensures var r' := After(r, Recover(r)); Resting(r') && After(r', Recover(r')) == r'
  {
    RestingRecovery(r);
    var r' := After(r, Recover(r));
    CleanResult(r);
    CleanResult(r');
    if r.journal != [] && Last(r.journal).state == Committed && SettleCommitted(r, Last(r.journal)) != CleanOrphans() {
      var p := PromoteLauncher(r, Last(r.journal).to);
      AfterThen(r, p, CleanOrphans());
      CleanResult(After(r, p));
    }
  }

  // All or nothing.

  /** What a settled update may look like. Of the root as it was, a committed
      update changes what an update is for and removes only what its collection
      may; one that was undone leaves everything but a directory of the new
      version's name, and the probation record it wrote before it began. */
  ghost predicate AllOrNothing(r0: Root, a: Request, r: Root) {
    var c := BriefOf(r0, a);
    || Untouched(r0, a, r)
    || (&& r.journal != [] && Grown(r.journal) && SameTransaction(Last(r.journal), Record(Begin, a.name, r0.current, a.to))
        && Arm(r0, a.to, a.allow).ok && r.probation == c.probation
        && match Last(r.journal).state
           case Committed =>
             && r.current == a.to && Whole(r, a.to) && r.install == Some(InstallState(a.name, a.to))
             && r.next == NextOf(c) && KeepsSpared(c, r.dirs)
           case RolledBack =>
             && r.current == r0.current && (r.current == "" || Whole(r, r.current))
             && r.dirs == r0.dirs - {a.to} && r.install == r0.install && r.next == c.next
           case Deferred =>
             && r.current == r0.current && (r.current == "" || Whole(r, r.current))
             && r.dirs == r0.dirs[a.to := true] && r.install == r0.install && r.next == c.next
             && PendingFor(r, a.to) == a.launcher
           case _ => false)
  }

  /** A recovery of a consistent transaction that completes settles it, and
      recovering again changes nothing. */
  lemma Settles(r0: Root, a: Request, r: Root)
    requires AtRest(r0) && Begun(r0, a, r)
    ensures Recover(r).ok
    ensures var r' := After(r, Recover(r));
            && AllOrNothing(r0, a, r') && AtRest(r') && After(r', Recover(r')) == r'
            && r'.journal != [] && (Last(r'.journal).state == Committed <==> r.current == a.to)
  {
    var c := BriefOf(r0, a);
    RecoverKeeps(c, r);
    RecoverIsIdempotent(c, r);
    SettledLooks(r0, a, After(r, Recover(r)));
  }

  /** What a consistent transaction that is settled looks like. */
  lemma SettledLooks(r0: Root, a: Request, r: Root)
    requires Begun(r0, a, r) && Last(r.journal).state in {Committed, RolledBack, Deferred}
    requires Last(r.journal).state == Committed ==> r.pending == map[]
    ensures AllOrNothing(r0, a, r)
  {
    if Last(r.journal).state == RolledBack {
      assert r.dirs.Keys == (r0.dirs - {a.to}).Keys;
      assert r.dirs == r0.dirs - {a.to};
    } else if Last(r.journal).state == Deferred {
      assert r.dirs.Keys == r0.dirs[a.to := true].Keys;
      assert r.dirs == r0.dirs[a.to := true];
    }
  }

  /** Crash atomicity. Cut an update after any number of its writes, then cut any
      number of recoveries anywhere; the recovery that completes succeeds and
      leaves all of the update or none of it. Which of the two was decided by
      whether the pointer had moved. The root is at rest again, so this holds of
      the next update too, as long as only updates and recoveries write. */
  lemma CrashAtomic(r0: Root, a: Request, k: nat, cuts: seq<nat>)
    requires AtRest(r0) && a.name != "" && a.to != ""
    ensures var crashed := Cut(r0, Update(r0, a), k);
            var r := Recoveries(crashed, cuts);
            var r' := After(r, Recover(r));
            && Recover(r).ok && AllOrNothing(r0, a, r') && AtRest(r')
            && After(r', Recover(r')) == r'
            && (!Untouched(r0, a, r') ==> (Last(r'.journal).state == Committed <==> crashed.current == a.to))
  {
    UpdateKeeps(r0, a);
    AlwaysCut(ReachedFrom(r0, a), r0, Update(r0, a), k);
    var crashed := Cut(r0, Update(r0, a), k);
    var r := Recoveries(crashed, cuts);
    if Begun(r0, a, crashed) {
      RecoveriesKeep(BriefOf(r0, a), crashed, cuts);
      Settles(r0, a, r);
    } else {
      RecoveriesRest(r0, a, crashed, cuts);
      RestingRecovery(r);
      RestingIdempotent(r);
    }
  }

  /** An update that returns success is committed, without any recovery. */
  lemma UpdateCommits(r0: Root, a: Request)
    requires AtRest(r0) && a.name != "" && a.to != "" && Update(r0, a).ok
    ensures var r := After(r0, Update(r0, a));
            && r.current == a.to && Whole(r, a.to) && r.install == Some(InstallState(a.name, a.to))
  {
    UpdateKeeps(r0, a);
  }

  /** And it leaves the root at rest. */
  lemma UpdateRests(r0: Root, a: Request)
    requires AtRest(r0) && a.name != "" && a.to != "" && Update(r0, a).ok
    ensures AtRest(After(r0, Update(r0, a)))
  {
    UpdateKeeps(r0, a);
  }

  /** An update that fails before its swap is recorded and is undone in process
      is all or nothing too, wherever the undoing is cut. */
  lemma FailedUpdate(r0: Root, a: Request, k: nat, j: nat, cuts: seq<nat>)
    requires AtRest(r0) && a.name != "" && a.to != ""
    requires var failed := Cut(r0, Update(r0, a), k);
             failed.journal != [] && Last(failed.journal).state in {Begin, Staged, Migrated}
    ensures var failed := Cut(r0, Update(r0, a), k);
            var r := Recoveries(Cut(failed, Rollback(failed), j), cuts);
            Recover(r).ok && AllOrNothing(r0, a, After(r, Recover(r)))
  {
    UpdateKeeps(r0, a);
    AlwaysCut(ReachedFrom(r0, a), r0, Update(r0, a), k);
    var c := BriefOf(r0, a);
    var failed := Cut(r0, Update(r0, a), k);
    assert Begun(r0, a, failed);
    RollbackKeepsUnlessSwapped(c, failed);
    AlwaysCut(Inv(c), failed, Rollback(failed), j);
    var undone := Cut(failed, Rollback(failed), j);
    RecoveriesKeep(c, undone, cuts);
    Settles(r0, a, Recoveries(undone, cuts));
  }

  /** Finishing a deferred update is all or nothing as well: uncut it commits; cut
      anywhere and recovered, it is committed, undone, or still waiting. */
  lemma DeferredFinishes(r0: Root, a: Request, k: nat, j: nat, cuts: seq<nat>)
    requires AtRest(r0) && a.name != "" && a.to != ""
    requires var r := Cut(r0, Update(r0, a), k);
             !Untouched(r0, a, r) && r.journal != [] && Last(r.journal).state == Deferred
    ensures var r := Cut(r0, Update(r0, a), k);
            var uncut, end := After(r, ResumeDeferred(r)), Recoveries(Cut(r, ResumeDeferred(r), j), cuts);
            && ResumeDeferred(r).ok && Done(r0, a, uncut)
            && Recover(end).ok && AllOrNothing(r0, a, After(end, Recover(end)))
  {
    var c := BriefOf(r0, a);
    UpdateKeeps(r0, a);
    AlwaysCut(ReachedFrom(r0, a), r0, Update(r0, a), k);
    var r := Cut(r0, Update(r0, a), k);
    ResumeKeeps(c, r);
    AlwaysCut(Inv(c), r, ResumeDeferred(r), j);
    var cut := Cut(r, ResumeDeferred(r), j);
    RecoveriesKeep(c, cut, cuts);
    Settles(r0, a, Recoveries(cut, cuts));
  }

  // What undoing takes along.

  lemma SameUnlessThere(dirs: map<Version, bool>, v: Version)
    ensures dirs - {v} == dirs <==> v !in dirs
  {
    if v in dirs {
      assert v !in dirs - {v};
    }
  }

  /** Where an update that was cut, and recoveries that were cut after it, are
      settled by the recovery that completes. */
  ghost function SettledAt(r0: Root, a: Request, k: nat, cuts: seq<nat>): Root {
    var r := Recoveries(Cut(r0, Update(r0, a), k), cuts);
    After(r, Recover(r))
  }

  /** An update that recovery takes back leaves every directory but one of the new
      version's name; so the directories are as they were if and only if there was
      none of that name before. */
  lemma UndoneRemoves(r0: Root, a: Request, k: nat, cuts: seq<nat>)
    requires AtRest(r0) && a.name != "" && a.to != ""
    requires var r := SettledAt(r0, a, k, cuts);
             !Untouched(r0, a, r) && r.journal != [] && Last(r.journal).state == RolledBack
    ensures var r := SettledAt(r0, a, k, cuts);
            && r.current == r0.current && r.dirs == r0.dirs - {a.to}
            && (r.dirs == r0.dirs <==> a.to !in r0.dirs)
  {
    CrashAtomic(r0, a, k, cuts);
    SameUnlessThere(r0.dirs, a.to);
  }

  /** The same for an uncut rollback in process, after a recorded swap too. */
  lemma RollbackRemoves(r0: Root, a: Request, k: nat)
    requires AtRest(r0) && a.name != "" && a.to != ""
    requires var failed := Cut(r0, Update(r0, a), k);
             failed.journal != [] && Last(failed.journal).state in {Begin, Staged, Migrated, Swapped}
    ensures var failed := Cut(r0, Update(r0, a), k);
            var r := After(failed, Rollback(failed));
            && Rollback(failed).ok && r.current == r0.current && r.dirs == r0.dirs - {a.to}
            && (r.dirs == r0.dirs <==> a.to !in r0.dirs)
  {
    UpdateKeeps(r0, a);
    AlwaysCut(ReachedFrom(r0, a), r0, Update(r0, a), k);
    var failed := Cut(r0, Update(r0, a), k);
    assert Begun(r0, a, failed);
    RollbackUndoes(BriefOf(r0, a), failed);
    UndoneDirs(BriefOf(r0, a), failed);
    SameUnlessThere(r0.dirs, a.to);
  }

  /** An update that is not refused and finds a directory of the new version's
      name always stops in staging, right behind its BEGIN record; undoing it
      then removes that directory, which it did not make. */
  lemma LeftoverIsRemoved(r0: Root, a: Request)
    requires AtRest(r0) && a.name != "" && a.to != "" && a.to in r0.dirs
    requires !Refuses(After(r0, Recover(r0)), a) && Arm(r0, a.to, a.allow).ok
    ensures !Update(r0, a).ok
    ensures var failed := After(r0, Update(r0, a));
            && failed.journal == [Record(Begin, a.name, r0.current, a.to)]
            && Rollback(failed).ok && After(failed, Rollback(failed)).dirs == r0.dirs - {a.to} != r0.dirs
  {
    var failed := UpdateFill(r0, a);
    RollbackUndoes(BriefOf(r0, a), failed);
    UndoneDirs(BriefOf(r0, a), failed);
    SameUnlessThere(r0.dirs, a.to);
  }

  /** Where an update that finds a leftover stops. */
  lemma UpdateFill(r0: Root, a: Request) returns (failed: Root)
    requires AtRest(r0) && a.name != "" && a.to != "" && a.to in r0.dirs
    requires !Refuses(After(r0, Recover(r0)), a) && Arm(r0, a.to, a.allow).ok
    ensures !Update(r0, a).ok && failed == After(r0, Update(r0, a))
    ensures Consistent(BriefOf(r0, a), failed) && failed.journal == [Record(Begin, a.name, r0.current, a.to)]
  {
    RestingRecovery(r0);
    var r1 := After(r0, Recover(r0));
    ArmKeeps(r0, a, r1);
    var armed := Arm(r1, a.to, a.allow);
    var r2 := After(r1, armed);
    var t := Record(Begin, a.name, r2.current, a.to);
    BeginKeeps(r0, a, r2, t);
    var r3 := r2.(journal := [t]);
    ExecOne(r2, SetJournal([t]));
    StagingStops(BriefOf(r0, a), r3, a, t);
    AfterThen(r2, Note(r2, t), Fill(r3, a, t));
    AfterThen(r1, armed, Transact(r2, a));
    AfterThen(r0, Recover(r0), Attempt(r1, a));
    failed := After(r3, Fill(r3, a, t));
  }

  /** An update that finds an instance running, and is to wait, ends staged. */
  lemma UpdateDefers(r0: Root, a: Request) returns (r: Root)
    requires AtRest(r0) && a.name != "" && a.to != "" && a.to !in r0.dirs && a.flushed && a.defers
    requires !Refuses(After(r0, Recover(r0)), a) && Arm(r0, a.to, a.allow).ok
    ensures r == After(r0, Update(r0, a)) && Begun(r0, a, r) && Last(r.journal).state == Deferred
  {
    RestingRecovery(r0);
    var r1 := After(r0, Recover(r0));
    ArmKeeps(r0, a, r1);
    var armed := Arm(r1, a.to, a.allow);
    var r2 := After(r1, armed);
    var t := Record(Begin, a.name, r2.current, a.to);
    BeginKeeps(r0, a, r2, t);
    var r3 := r2.(journal := [t]);
    ExecOne(r2, SetJournal([t]));
    r := FillDefers(BriefOf(r0, a), r3, a, t);
    AfterThen(r2, Note(r2, t), Fill(r3, a, t));
    AfterThen(r1, armed, Transact(r2, a));
    AfterThen(r0, Recover(r0), Attempt(r1, a));
  }

  lemma FillDefers(c: Brief, r: Root, a: Request, t: Record) returns (r': Root)
    requires Consistent(c, r) && Last(r.journal).state == Begin && Speaks(c, a, t)
    requires a.to !in r.dirs && a.flushed && a.defers
    ensures r' == After(r, Fill(r, a, t)) && Consistent(c, r') && Last(r'.journal).state == Deferred
  {
    var stage := Stage(r, a);
    StageKeeps(c, r, a);
    AlwaysCut(Inv(c), r, stage, 0);
    var r1 := After(r, stage);
    Appended(c, r1, t, Staged);
    NoteOne(c, r1, t, Staged);
    var staged := Note(r1, t.(state := Staged));
    var r2 := r1.(journal := r1.journal + [t.(state := Staged)]);
    Appended(c, r2, t, Deferred);
    NoteOne(c, r2, t, Deferred);
    var deferred := Note(r2, t.(state := Deferred));
    r' := r2.(journal := r2.journal + [t.(state := Deferred)]);
    assert deferred.writes + [] == deferred.writes;
    AfterThen(r1, staged, Quiesce(r2, a, t));
    AfterThen(r, stage, Then(staged, Quiesce(r2, a, t)));
  }

  lemma StagingStops(c: Brief, r: Root, a: Request, t: Record)
    requires Consistent(c, r) && Last(r.journal).state == Begin && a.to == c.to && a.launcher == c.launcher
    requires a.to in r.dirs
    ensures !Fill(r, a, t).ok
    ensures var failed := After(r, Fill(r, a, t)); Consistent(c, failed) && failed.journal == r.journal
  {
    var ws := [ClearStage(a.to), MakeStage(a.to), DropPending(a.to)]
              + (if a.launcher.Some? then [PutPending(a.to, a.launcher.value)] else []);
    BuildKeeps(c, r, a, ws);
    assert ws + [] == ws;
    assert Fill(r, a, t) == Stage(r, a) && Stage(r, a).writes == ws;
    AlwaysAtCut(Inv(c), r, ws, |ws|);
    assert ws[..|ws|] == ws;
  }

  // What an update that comes to nothing does to the probation of the version
  // that runs.

  /** An update that began, and was taken back by recovery or waits, leaves the live
      version's own record if and only if it brings no probation of its own.
      Otherwise that record is gone: no start counts against the live version any
      more or takes it back, and what it says about itself is not heard. */
  lemma LiveTrialIsLost(r0: Root, a: Request, k: nat, cuts: seq<nat>)
    requires AtRest(r0) && a.name != "" && a.to != "" && r0.current != "" && r0.current != a.to
    requires r0.probation.Some? && r0.probation.value.version == r0.current
    requires var r := SettledAt(r0, a, k, cuts);
             !Untouched(r0, a, r) && r.journal != [] && Last(r.journal).state != Committed
    ensures var r := SettledAt(r0, a, k, cuts);
            && r.current == r0.current && (r.probation == r0.probation <==> a.allow.attempts == 0)
            && (a.allow.attempts > 0 ==> Unheard(r))
  {
    CrashAtomic(r0, a, k, cuts);
    TrialLost(r0, a, SettledAt(r0, a, k, cuts));
  }

  /** The live version is not on trial, and nothing it reports counts. */
  ghost predicate Unheard(r: Root) {
    && Decide(r) == Idle && MarkHealthy(r, r.current) == DONE && MarkRestart(r) == DONE
    && forall why :: MarkUnhealthy(r, r.current, why) == DONE
  }

  lemma TrialLost(r0: Root, a: Request, r: Root)
    requires AllOrNothing(r0, a, r) && !Untouched(r0, a, r) && Last(r.journal).state != Committed
    requires r0.current != "" && r0.current != a.to
    requires r0.probation.Some? && r0.probation.value.version == r0.current
    ensures r.current == r0.current && (r.probation == r0.probation <==> a.allow.attempts == 0)
    ensures a.allow.attempts > 0 ==> Unheard(r)
  {
  }

  // A blocked version.

  /** Nothing but the block stands in the way. */
  ghost predicate OnlyBlocked(r0: Root, a: Request) {
    && a.admitted && a.from == r0.current != a.to && Arm(r0, a.to, a.allow).ok
    && !(r0.journal != [] && Last(r0.journal).state == Deferred && Last(r0.journal).to == a.to)
    && r0.probation.Some? && r0.probation.value.blocked.Some?
    && r0.probation.value.blocked.value.version == a.to
  }

  ghost predicate Begins(r0: Root, a: Request, k: nat) {
    Cut(r0, Update(r0, a), k).journal == [Record(Begin, a.name, r0.current, a.to)]
  }

  lemma FirstIsBegin(r0: Root, a: Request, r: Root)
    requires AtRest(r0) && a.name != "" && a.to != "" && a.to != r0.current
    requires Untouched(r0, a, r) && r.next == BriefOf(r0, a).next && r.probation == BriefOf(r0, a).probation
    ensures Cut(r, Transact(r, a), 1).journal == [Record(Begin, a.name, r0.current, a.to)]
  {
    var t := Record(Begin, a.name, r.current, a.to);
    BeginKeeps(r0, a, r, t);
    CutThen(r, One(SetJournal([t])), Fill(After(r, Note(r, t)), a, t), 0);
    ExecOne(r, SetJournal([t]));
  }

  lemma ProceedBegins(r0: Root, a: Request, r: Root) returns (k: nat)
    requires AtRest(r0) && a.name != "" && a.to != "" && a.to != r0.current && Arm(r0, a.to, a.allow).ok
    requires Untouched(r0, a, r) && r.next == BriefOf(r0, a).next && r.probation == r0.probation
    ensures Cut(r, Proceed(r, a), k).journal == [Record(Begin, a.name, r0.current, a.to)]
  {
    var armed := Arm(r, a.to, a.allow);
    ArmKeeps(r0, a, r);
    FirstIsBegin(r0, a, After(r, armed));
    k := IntoTransact(r, a, 1);
  }

  lemma IntoTransact(r: Root, a: Request, j: nat) returns (k: nat)
    requires Arm(r, a.to, a.allow).ok
    ensures var r1 := After(r, Arm(r, a.to, a.allow)); Cut(r, Proceed(r, a), k) == Cut(r1, Transact(r1, a), j)
  {
    var armed := Arm(r, a.to, a.allow);
    k := IntoSecond(r, Proceed(r, a), armed, Transact(After(r, armed), a), j);
  }

  lemma NotBlocked(r0: Root, a: Request) returns (k: nat)
    requires AtRest(r0) && a.name != "" && a.to != "" && OnlyBlocked(r0, a)
    requires r0.probation.value.blocked.value.reason == ""
    ensures Begins(r0, a, k)
  {
    RestingRecovery(r0);
    var r1 := After(r0, Recover(r0));
    var j := ProceedBegins(r0, a, r1);
    k := IntoProceed(r0, a, r1, j);
  }

  lemma IntoProceed(r0: Root, a: Request, r: Root, j: nat) returns (k: nat)
    requires Recover(r0).ok && r == After(r0, Recover(r0)) && !Refuses(r, a)
    ensures Cut(r0, Update(r0, a), k) == Cut(r, Proceed(r, a), j)
  {
    UpdateProceeds(r0, a, r);
    k := IntoSecond(r0, Update(r0, a), Recover(r0), Proceed(r, a), j);
  }

  lemma UpdateProceeds(r0: Root, a: Request, r: Root)
    requires r == After(r0, Recover(r0)) && !Refuses(r, a)
    ensures Update(r0, a) == Then(Recover(r0), Proceed(r, a))
  {
  }

  lemma IntoSecond(r: Root, whole: Plan, p: Plan, q: Plan, j: nat) returns (k: nat)
    requires whole == Then(p, q) && p.ok
    ensures Cut(r, whole, k) == Cut(After(r, p), q, j)
  {
    k := |p.writes| + j;
    CutThen(r, p, q, j);
  }

  /** A blocked version is begun after all if and only if it was blocked without a
      reason, which a stored record may be. */
  lemma BlockExactly(r0: Root, a: Request)
    requires AtRest(r0) && a.name != "" && a.to != "" && OnlyBlocked(r0, a)
    ensures (exists k: nat :: Begins(r0, a, k)) <==> r0.probation.value.blocked.value.reason == ""
  {
    if r0.probation.value.blocked.value.reason == "" {
      var k := NotBlocked(r0, a);
    } else {
      forall k: nat
        ensures !Begins(r0, a, k)
      {
        RestingRecovery(r0);
        assert Update(r0, a).writes == Recover(r0).writes;
        AlwaysCut(SameAs(r0), r0, Update(r0, a), k);
      }
    }
  }

  // One update after another.

  /** An update that was cut, recoveries that were cut, and one that was not. */
  datatype Round = Round(a: Request, k: nat, cuts: seq<nat>)

  ghost function AfterRounds(r: Root, rounds: seq<Round>): Root
    decreases |rounds|
  {
    if rounds == [] then r else AfterRounds(SettledAt(r, rounds[0].a, rounds[0].k, rounds[0].cuts), rounds[1..])
  }

  /** Any number of them, one after another, leaves a root at rest with a whole
      version live, on which the next is all or nothing again. */
  lemma {:induction false} RoundsAreAtomic(r: Root, rounds: seq<Round>, last: Round)
    requires AtRest(r) && last.a.name != "" && last.a.to != ""
    requires forall i :: 0 <= i < |rounds| ==> rounds[i].a.name != "" && rounds[i].a.to != ""
    ensures var x := AfterRounds(r, rounds);
            AtRest(x) && AllOrNothing(x, last.a, SettledAt(x, last.a, last.k, last.cuts))
    decreases |rounds|
  {
    if rounds == [] {
      CrashAtomic(r, last.a, last.k, last.cuts);
    } else {
      CrashAtomic(r, rounds[0].a, rounds[0].k, rounds[0].cuts);
      RoundsAreAtomic(SettledAt(r, rounds[0].a, rounds[0].k, rounds[0].cuts), rounds[1..], last);
    }
  }
}
