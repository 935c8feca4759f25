/** What operations come to when nothing stops them, told from the fields of the
    root they find and of what they are asked for. */
module Outcomes {
  import opened Bytes
  import opened Journal
  import opened Install
  import opened Txn
  import opened Trial
  import opened Apply
  import opened Launch
  import opened Machine
  import Atomicity

  // An update.

  /** Nothing stands in the way of beginning: the update is not waiting already, it
      was resolved against the version that runs, is another one and was let
      through; no reason is on record against it; and where it brings a probation
      of its own, no rollback is unfinished. */
  predicate Clear(r: Root, a: Request) {
    && !(r.journal != [] && Last(r.journal).state == Deferred && Last(r.journal).to == a.to)
    && a.from == r.current != a.to && a.admitted
    && match r.probation
       case None => true
       case Some(p) =>
         && !(p.blocked.Some? && p.blocked.value.version == a.to && p.blocked.value.reason != "")
         && (r.current != "" && a.allow.attempts > 0 ==> p.status != Reverting)
  }

  /** The directory can be built. */
  predicate Buildable(r: Root, a: Request) {
    a.to !in r.dirs && a.flushed
  }

  function History(r: Root, a: Request, states: seq<State>): seq<Record> {
    seq(|states|, i requires 0 <= i < |states| => Record(states[i], a.name, r.current, a.to))
  }

  /** What goes on record about the new version: it starts afresh, and a rollback
      goes to the version that ran, or past it to the one it would itself have gone
      back to, where it never confirmed. */
  predicate Recorded(r: Root, a: Request, p: Option<Probation>) {
    if r.current == "" || a.allow.attempts == 0 then p == r.probation
    else
      && p.Some? && p.value.version == a.to && p.value.status == Active && p.value.reason == ""
      && p.value.attempts == 0 == p.value.restarts && !p.value.restartPending
      && p.value.attemptsAllowed == a.allow.attempts && p.value.restartsAllowed == a.allow.restarts
      && p.value.blocked == (if r.probation.Some? then r.probation.value.blocked else None)
      && p.value.previous == (if SteppedOver(r, a.to) then r.probation.value.previous else r.current)
  }

  /** The version that runs is one that never confirmed, and what it replaced is
      still there and not what is coming. */
  predicate SteppedOver(r: Root, to: Version) {
    match r.probation
    case None => false
    case Some(p) =>
      && p.version == r.current && (p.status == Active || p.status == Unhealthy)
      && p.previous in r.dirs && p.previous != to
  }

  /** What the collection behind a commit leaves. */
  predicate Spares(a: Request, p: Option<Probation>, v: Version) {
    || v == a.to || v in a.sweep.window || v !in a.sweep.listing
    || (p.Some? && p.value.previous == v
        && (p.value.status == Active || p.value.status == Unhealthy || p.value.status == Reverting))
  }

  /** Which launcher waits for the next start once the transaction before this one
      is settled. */
  function Inherited(r: Root): Option<Launcher> {
    if r.journal != [] && Last(r.journal).state == Committed && r.current == Last(r.journal).to && r.current in r.pending
    then Some(r.pending[r.current])
    else r.next
  }

  ghost predicate Installed(r: Root, a: Request, next: Option<Launcher>, end: Root) {
    && end.journal == History(r, a, [Begin, Staged, Migrated, Swapped, Committed])
    && end.current == a.to && end.install == Some(InstallState(a.name, a.to))
    && (forall v :: v in end.dirs <==>
                      (v == a.to || v in r.dirs) && (Spares(a, end.probation, v) || v in a.sweep.stuck))
    && (forall v :: v in end.dirs && Spares(a, end.probation, v) ==>
                      end.dirs[v] == (if v == a.to then true else v in r.dirs && r.dirs[v]))
    && (a.failed.None? ==>
          && end.next == (if a.launcher.Some? then a.launcher else next)
          && end.pending == map[] && end.staged == {})
  }

  ghost predicate Deferral(r: Root, a: Request, end: Root) {
    && end.journal == History(r, a, [Begin, Staged, Deferred])
    && a.to !in r.dirs && end.dirs == r.dirs[a.to := true]
    && end.current == r.current && end.install == r.install
    && a.to !in end.staged
    && (if a.to in end.pending then Some(end.pending[a.to]) else None) == a.launcher
  }

  /** An update succeeds if and only if it is clear to begin, its directory can be
      built and no instance makes it wait; it waits if and only if one does. What
      it leaves is exact in every case. */
  ghost predicate ComesTo(r: Root, a: Request, next: Option<Launcher>, ok: bool, end: Root) {
    && (ok <==> Clear(r, a) && Buildable(r, a) && !a.defers)
    && (ok ==> Installed(r, a, next, end))
    && (Deferral(r, a, end) <==> Clear(r, a) && Buildable(r, a) && a.defers)
    && (Clear(r, a) ==> Recorded(r, a, end.probation))
    && (!Clear(r, a) ==> SameInstall(r, end))
    && (Clear(r, a) && !Buildable(r, a) ==>
          && end.journal == History(r, a, [Begin])
          && end.current == r.current && end.dirs == r.dirs && end.install == r.install)
  }

  lemma RecoveredRest(r: Root)
    requires Atomicity.AtRest(r)
    ensures Recover(r).ok
    ensures var r' := After(r, Recover(r)); SameInstall(r, r') && r'.next == Inherited(r)
  {
    RestingRecovery(r);
    CleanResult(r);
    if r.journal != [] {
      SettleResult(r, Last(r.journal));
    }
  }

  /** The journal takes the next record of its transaction. */
  lemma Noted(r: Root, t: Record, s: State)
    requires r.journal != [] && Grown(r.journal) && SameTransaction(t, Last(r.journal))
    requires t.to != "" && t.name != "" && s in Allowed(Last(r.journal).state) && s != Begin
    ensures var n := t.(state := s); var p := Note(r, n);
            && p.ok && After(r, p) == r.(journal := r.journal + [n])
            && Grown(r.journal + [n]) && Last(r.journal + [n]) == n
  {
    NoteKeeps(r, s);
    assert Last(r.journal).(state := s) == t.(state := s);
  }

  /** The transaction in the journal is the request's. */
  ghost predicate About(r: Root, a: Request, t: Record, s: State) {
    && r.journal != [] && Grown(r.journal) && SameTransaction(t, Last(r.journal)) && Last(r.journal).state == s
    && t.to == a.to != "" && t.name == a.name != ""
  }

  lemma TidyComes(r: Root, a: Request)
    requires r.current == a.to != ""
    ensures var p := Tidy(r, a); var end := After(r, p);
            && p.ok && end.journal == r.journal && end.current == r.current && end.install == r.install
            && end.probation == r.probation
            && (forall v :: v in end.dirs <==> v in r.dirs && (Spares(a, r.probation, v) || v in a.sweep.stuck))
            && (forall v :: v in end.dirs && Spares(a, r.probation, v) ==> end.dirs[v] == r.dirs[v])
            && (a.failed.None? ==>
                  && end.next == (if a.to in r.pending then Some(r.pending[a.to]) else r.next)
                  && end.pending == map[] && end.staged == {})
  {
    var p := Promotion(r, a);
    var promote := PromoteLauncher(r, a.to);
    Promoted(r, a.to);
    HousekeepingOnly(r, r, p.writes);
    AlwaysCut(SameAs(r), r, p, 0);
    var r1 := After(r, p);
    if a.failed.None? {
      AfterThen(r, promote, CleanOrphans());
      CleanResult(After(r, promote));
    }
    var q := Collect(r1, a.sweep);
    AfterThen(r, p, q);
    CollectResult(r1, a.sweep, "");
    forall v
      ensures v in After(r1, q).dirs <==> v in r.dirs && (Spares(a, r.probation, v) || v in a.sweep.stuck)
      ensures v in After(r1, q).dirs && Spares(a, r.probation, v) ==> After(r1, q).dirs[v] == r.dirs[v]
    {
      CollectResult(r1, a.sweep, v);
    }
  }

  /** From the recorded swap on. */
  lemma CommitComes(r: Root, a: Request, t: Record)
    requires About(r, a, t, Swapped) && r.current == a.to
    ensures Commit(r, a, t).ok
    ensures var r1 := r.(install := Some(InstallState(a.name, a.to)), journal := r.journal + [t.(state := Committed)]);
            After(r, Commit(r, a, t)) == After(r1, Tidy(r1, a))
  {
    var state := One(PutInstall(InstallState(a.name, a.to)));
    ExecOne(r, state.writes[0]);
    var r1 := r.(install := Some(InstallState(a.name, a.to)));
    Noted(r1, t, Committed);
    var committed := Note(r1, t.(state := Committed));
    var r2 := r1.(journal := r1.journal + [t.(state := Committed)]);
    TidyComes(r2, a);
    AfterThen(r1, committed, Tidy(r2, a));
    AfterThen(r, state, Then(committed, Tidy(r2, a)));
  }

  /** From STAGED on, with nothing to wait for. */
  lemma MigrateComes(r: Root, a: Request, t: Record)
    requires About(r, a, t, Staged) && a.to in r.dirs
    ensures Migrate(r, a, t).ok
    ensures var r1 := r.(current := a.to, install := Some(InstallState(a.name, a.to)),
                         journal := r.journal + [t.(state := Migrated)] + [t.(state := Swapped)] + [t.(state := Committed)]);
            After(r, Migrate(r, a, t)) == After(r1, Tidy(r1, a))
  {
    Noted(r, t, Migrated);
    var r1 := r.(journal := r.journal + [t.(state := Migrated)]);
    ExecOne(r1, Point(a.to));
    var r2 := r1.(current := a.to);
    Noted(r2, t, Swapped);
    var r3 := r2.(journal := r2.journal + [t.(state := Swapped)]);
    CommitComes(r3, a, t);
    AfterThen(r2, Note(r2, t.(state := Swapped)), Commit(r3, a, t));
    AfterThen(r1, One(Point(a.to)), Then(Note(r2, t.(state := Swapped)), Commit(r3, a, t)));
    AfterThen(r, Note(r, t.(state := Migrated)), Switch(r1, a, t));
  }

  /** The staging tree and the pending launcher, as staging leaves them. */
  function Built(r: Root, a: Request): Root {
    r.(staged := r.staged + {a.to},
       pending := if a.launcher.Some? then r.pending[a.to := a.launcher.value] else r.pending - {a.to})
  }

  lemma StageComes(r: Root, a: Request)
    ensures Stage(r, a).ok <==> Buildable(r, a)
    ensures Stage(r, a).ok ==>
              After(r, Stage(r, a)) == Built(r, a).(staged := r.staged - {a.to}, dirs := r.dirs[a.to := true])
    ensures !Stage(r, a).ok ==> SameInstall(r, After(r, Stage(r, a)))
  {
    var front := [ClearStage(a.to), MakeStage(a.to), DropPending(a.to)];
    var put := if a.launcher.Some? then [PutPending(a.to, a.launcher.value)] else [];
    var r1 := r.(staged := r.staged + {a.to}, pending := r.pending - {a.to});
    assert Exec(r, front) == r1 by {
      assert front[1..] == [MakeStage(a.to), DropPending(a.to)] && front[1..][1..] == [DropPending(a.to)];
      ExecOne(Do(Do(r, ClearStage(a.to)), MakeStage(a.to)), DropPending(a.to));
      assert r.staged - {a.to} + {a.to} == r.staged + {a.to};
    }
    ExecConcat(r, front, put);
    var p := Plan(front + put, true);
    assert After(r, p) == Built(r, a) by {
      if a.launcher.Some? {
        ExecOne(r1, put[0]);
        assert (r.pending - {a.to})[a.to := a.launcher.value] == r.pending[a.to := a.launcher.value];
      }
    }
    var r2 := Built(r, a);
    assert r2.staged - {a.to} == r.staged - {a.to};
    if a.to in r.dirs {
      assert p.writes + [] == p.writes;
    } else if a.flushed {
      AfterThen(r, p, One(Place(a.to)));
      ExecOne(r2, Place(a.to));
    } else {
      AfterThen(r, p, Plan([Place(a.to), Tear(a.to), Drop(a.to)], false));
      PlacedAndGone(r2, a.to);
    }
  }

  lemma PlacedAndGone(r: Root, v: Version)
    requires v !in r.dirs
    ensures Exec(r, [Place(v), Tear(v), Drop(v)]) == r.(staged := r.staged - {v})
  {
    var ws := [Place(v), Tear(v), Drop(v)];
    assert ws[1..] == [Tear(v), Drop(v)] && ws[1..][1..] == [Drop(v)];
    ExecOne(Do(Do(r, Place(v)), Tear(v)), Drop(v));
    assert r.dirs[v := true][v := false] - {v} == r.dirs;
  }

  /** From BEGIN on. */
  lemma FillComes(r: Root, a: Request, t: Record) returns (end: Root)
    requires About(r, a, t, Begin)
    ensures var p := Fill(r, a, t);
            && end == After(r, p) && end.probation == r.probation
            && (p.ok <==> Buildable(r, a) && !a.defers)
            && (!Buildable(r, a) ==> SameInstall(r, end))
            && (Buildable(r, a) && a.defers ==>
                  end == Built(r, a).(staged := r.staged - {a.to}, dirs := r.dirs[a.to := true],
                                      journal := r.journal + [t.(state := Staged)] + [t.(state := Deferred)]))
            && (p.ok ==>
                  var r1 := Built(r, a).(
                    staged := r.staged - {a.to}, dirs := r.dirs[a.to := true],
                    current := a.to, install := Some(InstallState(a.name, a.to)),
                    journal := r.journal + [t.(state := Staged)]
                               + [t.(state := Migrated)] + [t.(state := Swapped)] + [t.(state := Committed)]);
                  end == After(r1, Tidy(r1, a)))
  {
    var stage := Stage(r, a);
    StageComes(r, a);
    if !stage.ok {
      end := After(r, stage);
      return;
    }
    var r1 := After(r, stage);
    Noted(r1, t, Staged);
    var staged := Note(r1, t.(state := Staged));
    var r2 := r1.(journal := r1.journal + [t.(state := Staged)]);
    AfterThen(r1, staged, Quiesce(r2, a, t));
    AfterThen(r, stage, Then(staged, Quiesce(r2, a, t)));
    if a.defers {
      Noted(r2, t, Deferred);
      var deferred := Note(r2, t.(state := Deferred));
      assert deferred.writes + [] == deferred.writes;
      end := r2.(journal := r2.journal + [t.(state := Deferred)]);
    } else {
      MigrateComes(r2, a, t);
      end := After(r2, Migrate(r2, a, t));
      var r3 := r2.(current := a.to, install := Some(InstallState(a.name, a.to)),
                    journal := r2.journal + [t.(state := Migrated)] + [t.(state := Swapped)] + [t.(state := Committed)]);
      TidyComes(r3, a);
    }
  }

  /** The record that is armed. */
  lemma ArmComes(r: Root, a: Request)
    ensures Arm(r, a.to, a.allow).ok <==>
              (r.current != "" && a.allow.attempts > 0 && r.probation.Some? ==> r.probation.value.status != Reverting)
    ensures var r' := After(r, Arm(r, a.to, a.allow));
            && r' == r.(probation := r'.probation)
            && (Arm(r, a.to, a.allow).ok ==> Recorded(r, a, r'.probation))
            && (!Arm(r, a.to, a.allow).ok ==> r' == r)
  {
    var armed := Arm(r, a.to, a.allow);
    if armed.writes != [] {
      ExecOne(r, armed.writes[0]);
    }
  }

  lemma BeginComes(r: Root, a: Request)
    requires Resting(r) && a.name != "" && a.to != ""
    ensures var t := Record(Begin, a.name, r.current, a.to);
            && Note(r, t).ok && After(r, Note(r, t)) == r.(journal := [t])
            && About(r.(journal := [t]), a, t, Begin)
  {
    var t := Record(Begin, a.name, r.current, a.to);
    assert r.journal != [] ==> MayFollow(Last(r.journal), t);
    assert Append(r.journal, t) == Some([t]);
    ExecOne(r, SetJournal([t]));
  }

  /** From a settled root on. */
  lemma ProceedComes(r: Root, a: Request)
    requires Resting(r) && a.name != "" && a.to != "" && !Refuses(r, a)
    ensures ComesTo(r, a, r.next, Proceed(r, a).ok, After(r, Proceed(r, a)))
  {
    var armed := Arm(r, a.to, a.allow);
    ArmComes(r, a);
    if armed.ok {
      var r1 := After(r, armed);
      TransactComes(r1, a);
      AfterThen(r, armed, Transact(r1, a));
      assert forall states :: History(r, a, states) == History(r1, a, states);
      assert Clear(r, a);
    } else {
      assert !Clear(r, a) && After(r, Proceed(r, a)) == r;
    }
    var end := After(r, Proceed(r, a));
    if !(Clear(r, a) && Buildable(r, a) && a.defers) {
      NoDeferral(r, a, end);
    }
  }

  /** The new directory and the length of the journal tell a deferral from anything
      else. */
  lemma NoDeferral(r: Root, a: Request, end: Root)
    requires end.dirs == r.dirs || end.journal == History(r, a, [Begin, Staged, Migrated, Swapped, Committed])
    ensures !Deferral(r, a, end)
  {
    assert a.to !in r.dirs ==> a.to in r.dirs[a.to := true];
  }

  /** From the armed record on. */
  lemma TransactComes(r: Root, a: Request)
    requires Resting(r) && a.name != "" && a.to != ""
    ensures var p := Transact(r, a); var end := After(r, p);
            && end.probation == r.probation
            && (p.ok <==> Buildable(r, a) && !a.defers)
            && (p.ok ==> Installed(r, a, r.next, end))
            && (!Buildable(r, a) ==>
                  && end.journal == History(r, a, [Begin])
                  && end.current == r.current && end.dirs == r.dirs && end.install == r.install)
            && (Buildable(r, a) && a.defers ==> Deferral(r, a, end))
  {
    BeginComes(r, a);
    var t := Record(Begin, a.name, r.current, a.to);
    var r1 := r.(journal := [t]);
    var end := FillComes(r1, a, t);
    AfterThen(r, Note(r, t), Fill(r1, a, t));
    Histories(r, a, t);
    if Fill(r1, a, t).ok {
      var r2 := Built(r1, a).(
        staged := r1.staged - {a.to}, dirs := r1.dirs[a.to := true],
        current := a.to, install := Some(InstallState(a.name, a.to)),
        journal := r1.journal + [t.(state := Staged)]
                   + [t.(state := Migrated)] + [t.(state := Swapped)] + [t.(state := Committed)]);
      TidyComes(r2, a);
    }
  }

  lemma Histories(r: Root, a: Request, t: Record)
    requires t == Record(Begin, a.name, r.current, a.to)
    ensures History(r, a, [Begin]) == [t]
    ensures History(r, a, [Begin, Staged, Deferred]) == [t] + [t.(state := Staged)] + [t.(state := Deferred)]
    ensures History(r, a, [Begin, Staged, Migrated, Swapped, Committed])
            == [t] + [t.(state := Staged)] + [t.(state := Migrated)] + [t.(state := Swapped)] + [t.(state := Committed)]
  {
  }

  lemma UpdateExactly(r: Root, a: Request)
    requires Atomicity.AtRest(r) && a.name != "" && a.to != ""
    ensures ComesTo(r, a, Inherited(r), Update(r, a).ok, After(r, Update(r, a)))
  {
    RecoveredRest(r);
    var recovered := Recover(r);
    var r1 := After(r, recovered);
    AfterThen(r, recovered, Attempt(r1, a));
    if !Refuses(r1, a) {
      ProceedComes(r1, a);
      SameOutcome(r, r1, a, Proceed(r1, a).ok, After(r1, Proceed(r1, a)));
    } else {
      assert !Clear(r, a);
      NoDeferral(r, a, After(r, Update(r, a)));
    }
  }

  /** What it comes to does not depend on what recovery cleans up. */
  lemma SameOutcome(r: Root, r1: Root, a: Request, ok: bool, end: Root)
    requires SameInstall(r, r1) && ComesTo(r1, a, r1.next, ok, end)
    ensures ComesTo(r, a, r1.next, ok, end)
  {
    assert forall states :: History(r, a, states) == History(r1, a, states);
  }

  // Updates that nobody confirms.

  ghost function AfterUpdates(r: Root, all: seq<Request>): Root
    decreases |all|
  {
    if all == [] then r else AfterUpdates(After(r, Update(r, all[0])), all[1..])
  }

  /** They all succeed, and each version is to show that it works. */
  ghost predicate AllInstall(r: Root, all: seq<Request>)
    decreases |all|
  {
    all != [] ==>
      && all[0].name != "" && all[0].to != "" && all[0].allow.attempts > 0
      && Update(r, all[0]).ok && AllInstall(After(r, Update(r, all[0])), all[1..])
  }

  /** The version that runs has not confirmed, and `good` is what it goes back to. */
  predicate Rests(r: Root, good: Version) {
    && Whole(r, good) && r.probation.Some? && r.probation.value.version == r.current != ""
    && r.probation.value.status == Active && r.probation.value.previous == good
  }

  lemma StillRests(r: Root, good: Version, a: Request, end: Root)
    requires Installed(r, a, Inherited(r), end) && Recorded(r, a, end.probation)
    requires a.to != "" && a.allow.attempts > 0 && a.to !in r.dirs && Whole(r, good)
    requires Rests(r, good) || (good == r.current != "" && !SteppedOver(r, a.to))
    ensures Rests(end, good)
  {
    assert end.probation.value.previous == good;
    assert Spares(a, end.probation, good);
  }

  /** However many updates are installed on top of each other without one being
      confirmed, the version to go back to is the last one before them that was
      not itself on trial, and its directory stays whole, whatever the collections
      in between would take. */
  lemma {:induction false} KnownGoodStays(r: Root, good: Version, all: seq<Request>)
    requires Atomicity.AtRest(r) && all != [] && AllInstall(r, all)
    requires Rests(r, good) || (good == r.current != "" && !SteppedOver(r, all[0].to))
    ensures Atomicity.AtRest(AfterUpdates(r, all)) && Rests(AfterUpdates(r, all), good)
    decreases |all|
  {
    var a := all[0];
    UpdateExactly(r, a);
    var r1 := After(r, Update(r, a));
    StillRests(r, good, a, r1);
    Atomicity.UpdateRests(r, a);
    if all[1..] != [] {
      KnownGoodStays(r1, good, all[1..]);
    }
  }

  // An uninstall.

  /** There is something on record to remove, and recovery can settle it. */
  predicate Removable(r: Root) {
    if r.journal == [] then r.install.Some? && r.install.value.name != "" && r.install.value.version != ""
    else Last(r.journal).state == State.Uninstalling || Lands(r).Some?
  }

  /** The directories an uninstall comes upon. */
  function Found(r: Root): map<Version, bool> {
    if r.journal != [] && Last(r.journal).state == State.Uninstalling then r.dirs else DirsAfter(r)
  }

  /** An uninstall is begun if and only if there is something to remove that is not
      beyond recovery, and then finishes if and only if every listed directory lets
      itself be removed. Then nothing is left but directories that were not
      listed; otherwise nothing runs any more, and what is on record still says
      that it was begun. One that is not begun changes nothing. */
  ghost predicate Removed(r: Root, listing: seq<Version>, stuck: set<Version>, ok: bool, end: Root) {
    && (ok <==> Removable(r) && forall v :: v in listing ==> v !in stuck)
    && (!Removable(r) ==> end == r)
    && (Removable(r) ==>
          && end.current == ""
          && (forall v :: v in end.dirs <==> v in Found(r) && (v !in listing || v in stuck)))
    && (ok ==>
          && end.journal == [] && end.install == None && end.probation == None && end.next == None
          && end.pending == map[] && end.staged == {})
    && (Removable(r) && !ok ==>
          && end.journal != [] && Last(end.journal).state == State.Uninstalling && end.probation == r.probation
          && end.install == InstallAfter(r)
          && (if r.journal != [] then SameTransaction(Last(end.journal), Last(r.journal))
              else Last(end.journal) == Record(State.Uninstalling, r.install.value.name, "", r.install.value.version)))
  }

  lemma RemoveAllComes(r: Root, listing: seq<Version>, stuck: set<Version>)
    ensures var p := RemoveAll(listing, stuck); var end := After(r, p);
            && (p.ok <==> forall v :: v in listing ==> v !in stuck)
            && end.current == ""
            && (forall v :: v in end.dirs <==> v in r.dirs && (v !in listing || v in stuck))
            && (if p.ok then end == Root([], "", end.dirs, None, {}, map[], None, None)
                else end == r.(current := "", dirs := end.dirs))
  {
    var all := AllRemovals(listing, stuck);
    var r1 := r.(current := "");
    ExecOne(r, Unpoint);
    RemovalsResult(r1, listing, {}, stuck, "");
    var r2 := After(r1, all);
    forall v
      ensures v in r2.dirs <==> v in r.dirs && (v !in listing || v in stuck)
    {
      RemovalsResult(r1, listing, {}, stuck, v);
    }
    AfterThen(r, One(Unpoint), Then(all, REMOVE_META));
    if all.ok {
      AfterThen(r1, all, REMOVE_META);
      MetaComes(r2);
    }
  }

  lemma MetaComes(r: Root)
    ensures After(r, REMOVE_META) == Root([], r.current, r.dirs, None, {}, map[], None, None)
  {
    var ws := REMOVE_META.writes;
    var r1 := r.(next := None);
    var r2 := r1.(probation := None);
    var r3 := r2.(pending := map[]);
    var r4 := r3.(staged := {});
    var r5 := r4.(install := None);
    Six(r, r1, r2, r3, r4, r5, r5.(journal := []), ws);
  }

  lemma Six(r: Root, r1: Root, r2: Root, r3: Root, r4: Root, r5: Root, r6: Root, ws: seq<Write>)
    requires |ws| == 6
    requires Do(r, ws[0]) == r1 && Do(r1, ws[1]) == r2 && Do(r2, ws[2]) == r3
    requires Do(r3, ws[3]) == r4 && Do(r4, ws[4]) == r5 && Do(r5, ws[5]) == r6
    ensures Exec(r, ws) == r6
  {
    Next(r, ws);
    Next(r1, ws[1..]);
    Next(r2, ws[1..][1..]);
    Next(r3, ws[1..][1..][1..]);
    Next(r4, ws[1..][1..][1..][1..]);
    Next(r5, ws[1..][1..][1..][1..][1..]);
  }

  lemma Next(r: Root, ws: seq<Write>)
    requires ws != []
    ensures Exec(r, ws) == Exec(Do(r, ws[0]), ws[1..])
  {
  }

  lemma RemoveExactly(r: Root, listing: seq<Version>, stuck: set<Version>)
    requires Filed(r)
    ensures Removed(r, listing, stuck, Remove(r, listing, stuck).ok, After(r, Remove(r, listing, stuck)))
  {
    if Ending(r) {
      RemoveAllComes(r, listing, stuck);
      return;
    }
    RecoverExactly(r);
    if Removable(r) {
      var r1 := RemovalBegins(r, listing, stuck);
      RemoveAllComes(r1, listing, stuck);
    }
  }

  /** The record that an uninstall has begun, behind recovery. */
  lemma RemovalBegins(r: Root, listing: seq<Version>, stuck: set<Version>) returns (r1: Root)
    requires Filed(r) && Removable(r) && !Ending(r)
    ensures var all := RemoveAll(listing, stuck);
            Remove(r, listing, stuck).ok == all.ok && After(r, Remove(r, listing, stuck)) == After(r1, all)
    ensures r1.journal != [] && Last(r1.journal).state == State.Uninstalling
    ensures r1.dirs == DirsAfter(r) && r1.install == InstallAfter(r) && r1.probation == r.probation
    ensures if r.journal != [] then SameTransaction(Last(r1.journal), Last(r.journal))
            else Last(r1.journal) == Record(State.Uninstalling, r.install.value.name, "", r.install.value.version)
  {
    var settled := if r.journal == [] then DONE else Recover(r);
    RecoverExactly(r);
    if r.journal != [] {
      RecoverLeaves(r);
    }
    var r0 := After(r, settled);
    Bids(r, r0);
    var bid := Note(r0, Farewell(r0, r.install));
    r1 := After(r0, bid);
    AfterThen(r0, bid, RemoveAll(listing, stuck));
    AfterThen(r, settled, Then(bid, RemoveAll(listing, stuck)));
  }

  /** The last record is taken. */
  lemma Bids(r: Root, r1: Root)
    requires Filed(r1) && (r1.journal != [] ==> Last(r1.journal).state in {Committed, RolledBack, Deferred})
    requires r1.journal == [] ==> r.install.Some? && r.install.value.name != "" && r.install.value.version != ""
    ensures var bid := Note(r1, Farewell(r1, r.install));
            && bid.ok && After(r1, bid) == r1.(journal := After(r1, bid).journal)
            && After(r1, bid).journal != [] && Last(After(r1, bid).journal).state == State.Uninstalling
            && (if r1.journal != [] then SameTransaction(Last(After(r1, bid).journal), Last(r1.journal))
                else Last(After(r1, bid).journal)
                     == Record(State.Uninstalling, r.install.value.name, "", r.install.value.version))
  {
    if r1.journal != [] {
      NoteKeeps(r1, State.Uninstalling);
    } else {
      ExecOne(r1, SetJournal([Farewell(r1, r.install)]));
    }
  }
}
