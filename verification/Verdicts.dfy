/** What a start does about the version on probation, told from the fields of its
    record; and what the application's own word about itself leads to. */
module Verdicts {
  import opened Bytes
  import opened Journal
  import opened Install
  import opened Txn
  import opened Trial
  import opened Apply
  import opened Launch
  import opened Retries

  /** The record calls for a rollback: one is under way, or the version that runs
      said it does not work, was rolled back before, or used up its starts, or the
      restarts it asked for, without confirming. */
  predicate Due(p: Probation, live: Version) {
    || p.status == Reverting
    || (p.version == live
        && (|| p.status == Unhealthy || p.status == Reverted
            || (p.status == Active
                && if p.restartPending then p.restarts > p.restartsAllowed else p.attempts >= p.attemptsAllowed)))
  }

  function Why(p: Probation): string {
    if p.status != Active then p.reason
    else if p.restartPending then "asked to be restarted more often than allowed without confirming it is healthy"
    else "not confirmed healthy after the starts allowed"
  }

  /** The root with the version gone and blocked, and the one before it live. */
  predicate WentTo(p: Probation, end: Root) {
    && end.current == p.previous && p.version !in end.dirs
    && end.install.Some? && end.install.value.version == p.previous
    && end.probation == Some(p.(status := Reverted, reason := Why(p), restartPending := false,
                                blocked := Some(Blocked(p.version, Why(p)))))
  }

  /** A rollback goes through, or stops behind the pointer for want of an install
      state. */
  predicate GoneBack(p: Probation, install: bool, ok: bool, end: Root) {
    if install then ok && WentTo(p, end)
    else !ok && end.current == p.previous && end.probation == Some(p.(status := Reverting, reason := Why(p)))
  }

  /** It finds nothing to go back to: one under way is stuck, and any other is
      given up. */
  predicate GivenUp(p: Probation, live: Version, ok: bool, end: Root) {
    && end.current == live && end.probation.Some?
    && if p.status == Reverting then !ok && end.probation.value == p
       else && ok && Why(p) < end.probation.value.reason
            && end.probation.value == p.(status := Kept, reason := end.probation.value.reason)
  }

  /** Short of a rollback the start is counted, or the restart asked for has
      happened, or nothing is on trial. */
  function Counts(p: Probation, live: Version): Probation {
    if Due(p, live) || p.version != live || p.status != Active then p
    else if p.restartPending then p.(restartPending := false)
    else p.(attempts := p.attempts + 1)
  }

  /** What a record comes to at a start that finds `live` about to run: given
      whether the version to go back to is there, whether there is an install
      state, and whether the start has the lock. */
  predicate Verdict(record: Option<Probation>, live: Version, there: bool, install: bool, lock: bool, ok: bool, end: Root) {
    match record
    case None => ok && end.current == live && end.probation == None
    case Some(p) =>
      if Due(p, live) && lock then
        if there then GoneBack(p, install, ok, end) else GivenUp(p, live, ok, end)
      else ok && end.current == live && end.probation == Some(Counts(p, live))
  }

  lemma SettlesExactly(r: Root, running: bool)
    ensures var p := Settle(r, running);
            Verdict(r.probation, r.current, r.probation.Some? && r.probation.value.previous in r.dirs,
                    r.install.Some?, !running, p.ok, After(r, p))
  {
    match Decide(r)
    case Idle =>
    case Counted => ExecOne(r, Settle(r, running).writes[0]);
    case Restarted => ExecOne(r, Settle(r, running).writes[0]);
    case Reverts(reason) => if !running { RevertsExactly(r); }
  }

  lemma RevertsExactly(r: Root)
    requires Decide(r).Reverts?
    ensures var p := r.probation.value;
            var plan := Revert(r, p, Decide(r).reason);
            && Due(p, r.current) && Decide(r).reason == Why(p)
            && if p.previous in r.dirs then GoneBack(p, r.install.Some?, plan.ok, After(r, plan))
               else GivenUp(p, r.current, plan.ok, After(r, plan))
  {
    var p, reason := r.probation.value, Decide(r).reason;
    if p.previous !in r.dirs {
      if p.status != Reverting {
        ExecOne(r, PutProbation(Stays(p, reason)));
      }
    } else if r.install.Some? {
      RevertResult(r, p, reason);
    } else {
      RevertPoints(r, p, reason);
    }
  }

  /** The directories a start leaves: those it found at probation, but for the one
      of a version it took back. */
  predicate Leaves(record: Option<Probation>, found: set<Version>, live: Version, install: bool, lock: bool, end: Root) {
    var back := record.Some? && Due(record.value, live) && lock && record.value.previous in found && install;
    end.dirs.Keys == if back then found - {record.value.version} else found
  }

  lemma SettlesDirs(r: Root, running: bool)
    ensures Leaves(r.probation, r.dirs.Keys, r.current, r.install.Some?, !running, After(r, Settle(r, running)))
  {
    match Decide(r)
    case Idle =>
    case Counted => ExecOne(r, Settle(r, running).writes[0]);
    case Restarted => ExecOne(r, Settle(r, running).writes[0]);
    case Reverts(reason) => if !running { RevertsDirs(r); }
  }

  lemma RevertsDirs(r: Root)
    requires Decide(r).Reverts?
    ensures Leaves(r.probation, r.dirs.Keys, r.current, r.install.Some?, true,
                   After(r, Revert(r, r.probation.value, Decide(r).reason)))
  {
    var p, reason := r.probation.value, Decide(r).reason;
    RevertsExactly(r);
    if p.previous !in r.dirs {
      if p.status != Reverting {
        ExecOne(r, PutProbation(Stays(p, reason)));
      }
    } else if r.install.Some? {
      RevertResult(r, p, reason);
    } else {
      RevertPoints(r, p, reason);
    }
  }

  /** The directories there are when a start with the lock comes to probation. */
  function AtProbation(r: Root, s: Sweep): set<Version> {
    set v | v in DirsAfter(r) && There(r, s, v)
  }

  /** A start that has the lock: of any root recovery settles, and that has a
      version to make live, it makes exactly what the record calls for. */
  lemma StartExactly(r: Root, w: World)
    requires Filed(r) && Free(w) && Lives(r).Some?
    ensures Verdict(r.probation, Lives(r).value,
                    r.probation.Some? && There(r, w.sweep, r.probation.value.previous),
                    Waiting(r) || InstallAfter(r).Some?, true,
                    Start(r, w).ok, After(r, Start(r, w)))
    ensures Leaves(r.probation, AtProbation(r, w.sweep), Lives(r).value,
                   Waiting(r) || InstallAfter(r).Some?, true, After(r, Start(r, w)))
  {
    PrepareResult(r, w.sweep);
    StartIsPrepareThenSettle(r, w);
    var p := Prepare(r, w.sweep);
    var x := After(r, p);
    AfterThen(r, p, Settle(x, false));
    SettlesExactly(x, false);
    SettlesDirs(x, false);
    assert x.dirs.Keys == AtProbation(r, w.sweep);
  }

  /** And one that does not finish a deferred update, with the lock or without:
      without it, a rollback that is due waits and starts are counted all the
      same. */
  lemma SkippingStartExactly(r: Root, w: World)
    requires Filed(r) && Lands(r).Some? && (Waiting(r) ==> !w.resumes)
    ensures Verdict(r.probation, Lands(r).value,
                    r.probation.Some? && r.probation.value.previous in DirsAfter(r),
                    InstallAfter(r).Some?, w.reverts,
                    Start(r, w).ok, After(r, Start(r, w)))
    ensures Leaves(r.probation, DirsAfter(r).Keys, Lands(r).value, InstallAfter(r).Some?, w.reverts, After(r, Start(r, w)))
  {
    RecoverExactly(r);
    var recovered := Recover(r);
    var r1 := After(r, recovered);
    AfterThen(r, recovered, Continue(r1, w));
    SettlesExactly(r1, !w.reverts);
    SettlesDirs(r1, !w.reverts);
  }

  /** Where the version to go back to and an install state are there, a start ends
      back at it, with the other one blocked, if and only if the record calls for
      that or it has happened before. */
  lemma GoesBackExactly(r: Root, w: World)
    requires Filed(r) && Free(w) && Lives(r).Some? && r.probation.Some? && Proper(r)
    requires There(r, w.sweep, r.probation.value.previous) && (Waiting(r) || InstallAfter(r).Some?)
    ensures var p, end := r.probation.value, After(r, Start(r, w));
            (end.probation.Some? && end.probation.value.status == Reverted && end.current == p.previous)
            <==> (Due(p, Lives(r).value) || (p.status == Reverted && Lives(r).value == p.previous))
  {
    StartExactly(r, w);
  }

  // The application's word.

  /** The next start after something was said, and whether probation reports no
      error at it. */
  ghost function Heeded(r: Root, said: Plan, w: World): Root {
    var x := After(r, said);
    After(x, Start(x, w))
  }

  ghost predicate Smooth(r: Root, said: Plan, w: World) {
    Start(After(r, said), w).ok
  }

  /** The version that runs is on trial, and nothing will come in between. */
  ghost predicate Heard(r: Root) {
    && Filed(r) && Lives(r) == Some(r.current)
    && r.probation.Some? && r.probation.value.version == r.current && r.probation.value.status == Active
  }

  /** A version that says it does not work is gone after the next start, whatever
      it has left, and the reason is on record. */
  lemma ComplainingGoesBack(r: Root, why: string, w: World)
    requires Heard(r) && Free(w) && Proper(r)
    requires There(r, w.sweep, r.probation.value.previous) && (Waiting(r) || InstallAfter(r).Some?)
    ensures Smooth(r, MarkUnhealthy(r, r.current, why), w)
    ensures var end := Heeded(r, MarkUnhealthy(r, r.current, why), w);
            && end.current == r.probation.value.previous && r.current !in end.dirs
            && end.probation.Some? && end.probation.value.blocked.Some?
            && end.probation.value.blocked.value.version == r.current
            && (why != "" ==> end.probation.value.blocked.value.reason == why)
            && end.probation.value.blocked.value.reason != ""
  {
    var q := r.probation.value.(status := Unhealthy, reason := if why == "" then UNHEALTHY else why);
    var x := r.(probation := Some(q));
    ExecOne(r, PutProbation(q));
    assert After(r, MarkUnhealthy(r, r.current, why)) == x;
    Overwritten(r, q, w.sweep);
    StartExactly(x, w);
    assert Due(q, r.current);
  }

  /** A version that confirms is there for good, as far as probation goes: no start
      counts or takes it back. */
  lemma ConfirmingStays(r: Root, w: World)
    requires Heard(r) && Free(w)
    ensures Smooth(r, MarkHealthy(r, r.current), w)
    ensures var p := r.probation.value.(status := Confirmed, restartPending := false);
            var end := Heeded(r, MarkHealthy(r, r.current), w);
            && end.current == r.current && end.probation == Some(p)
            && forall live :: !Due(p, live)
  {
    var p := r.probation.value.(status := Confirmed, restartPending := false);
    var x := r.(probation := Some(p));
    ExecOne(r, PutProbation(p));
    assert After(r, MarkHealthy(r, r.current)) == x;
    Reworded(r, p);
    StartExactly(x, w);
    assert Counts(p, r.current) == p;
  }

  /** Another word on record does not change what runs. */
  lemma Reworded(r: Root, q: Probation)
    requires Filed(r)
    ensures var x := r.(probation := Some(q));
            Filed(x) && Lives(x) == Lives(r) && (Waiting(x) <==> Waiting(r)) && InstallAfter(x) == InstallAfter(r)
  {
  }

  /** No write of a plan is to the probation record. */
  predicate Quiet(p: Plan) {
    forall i :: 0 <= i < |p.writes| ==> !p.writes[i].PutProbation? && !p.writes[i].DropProbation?
  }

  lemma {:induction false} QuietKeeps(r: Root, ws: seq<Write>)
    requires Quiet(Plan(ws, true))
    ensures Exec(r, ws).probation == r.probation
    decreases |ws|
  {
    if ws != [] {
      assert forall i :: 0 <= i < |ws[1..]| ==> ws[1..][i] == ws[i + 1];
      QuietKeeps(Do(r, ws[0]), ws[1..]);
    }
  }

  lemma QuietThen(p: Plan, q: Plan)
    requires Quiet(p) && (p.ok ==> Quiet(q))
    ensures Quiet(Then(p, q))
  {
  }

  lemma QuietComplete(r: Root, t: Record)
    ensures Quiet(CompleteSwapped(r, t)) && Quiet(Complete(r, t))
  {
    var committed := t.(state := Committed);
    QuietThen(Note(r, committed), SettleCommitted(r, committed));
    var swapped := Note(r, t.(state := Swapped));
    var r1 := After(r, swapped);
    QuietThen(Note(r1, committed), SettleCommitted(r1, committed));
    QuietThen(swapped, CompleteSwapped(r1, t));
  }

  lemma QuietRecover(r: Root)
    ensures Quiet(Recover(r))
  {
    if r.journal != [] {
      var t := Last(r.journal);
      QuietComplete(r, t);
      var rest := Then(Note(r, t.(state := RolledBack)), CleanOrphans());
      var p2 := if t.to != t.from then RemoveVersion(t.to) else DONE;
      QuietThen(p2, rest);
      QuietThen(RestorePointer(r, t), Then(p2, rest));
    }
  }

  lemma QuietResume(r: Root)
    ensures Quiet(ResumeDeferred(r))
  {
    if r.journal != [] && Accepted(r.journal) && Last(r.journal).state == Deferred {
      var t := Last(r.journal);
      var migrated := Note(r, t.(state := Migrated));
      var swap := if t.to in r.dirs then One(Point(t.to)) else REFUSED;
      var moved := After(After(r, migrated), swap);
      var swapped := Note(moved, t.(state := Swapped));
      var rest := Complete(After(moved, swapped), t.(state := Swapped));
      QuietComplete(After(moved, swapped), t.(state := Swapped));
      QuietThen(swapped, rest);
      QuietThen(swap, Then(swapped, rest));
    }
  }

  lemma {:induction false} QuietRemovals(listing: seq<Version>, keep: set<Version>, stuck: set<Version>)
    ensures Quiet(Plan(Removals(listing, keep, stuck), true))
    decreases |listing|
  {
    if listing != [] {
      QuietRemovals(listing[1..], keep, stuck);
    }
  }

  /** A start finds a record that nothing brings up again, whatever is live. */
  lemma QuietStart(r: Root, w: World)
    requires r.probation.Some? && r.probation.value.status == Confirmed
    ensures Quiet(Start(r, w))
  {
    QuietRecover(r);
    QuietKeeps(r, Recover(r).writes);
    QuietContinue(After(r, Recover(r)), w);
    QuietThen(Recover(r), Continue(After(r, Recover(r)), w));
  }

  lemma QuietContinue(r: Root, w: World)
    requires r.probation.Some? && r.probation.value.status == Confirmed
    ensures Quiet(Continue(r, w))
  {
    if Waiting(r) && w.resumes {
      var resumed := ResumeDeferred(r);
      QuietResume(r);
      QuietKeeps(r, resumed.writes);
      var r1 := After(r, resumed);
      var swept := Collect(r1, w.sweep);
      QuietRemovals(w.sweep.listing, {r1.current} + Pins(r1) + w.sweep.window, w.sweep.stuck);
      QuietKeeps(r1, swept.writes);
      var settled := Settle(After(r1, swept), false);
      QuietThen(swept, settled);
      QuietThen(resumed, Then(swept, settled));
    }
  }

  /** Once confirmed, always confirmed: whatever starts there are, wherever they
      are cut, and whatever version they make live, none brings the record up
      again. */
  lemma {:induction false} ConfirmedForGood(r: Root, tries: seq<Try>)
    requires r.probation.Some? && r.probation.value.status == Confirmed
    ensures Retry(r, tries).probation == r.probation
    decreases |tries|
  {
    if tries != [] {
      var p := Start(r, tries[0].w);
      QuietStart(r, tries[0].w);
      QuietKeeps(r, p.writes[..if tries[0].cut < |p.writes| then tries[0].cut else |p.writes|]);
      ConfirmedForGood(Cut(r, p, tries[0].cut), tries[1..]);
    }
  }

  predicate Restarts(p: Probation, end: Root) {
    if p.restarts < p.restartsAllowed
    then end.current == p.version && end.probation == Some(p.(restarts := p.restarts + 1, restartPending := false))
    else end.current == p.previous && p.version !in end.dirs
  }

  /** A restart the application asked for costs none of its starts, as long as it
      does not ask too often; then it goes back. */
  lemma RestartingIsFree(r: Root, w: World)
    requires Heard(r) && Free(w) && Proper(r)
    requires There(r, w.sweep, r.probation.value.previous) && (Waiting(r) || InstallAfter(r).Some?)
    ensures Restarts(r.probation.value, Heeded(r, MarkRestart(r), w))
  {
    AskedStart(r, w);
    RestartVerdict(r.probation.value, Smooth(r, MarkRestart(r), w), Heeded(r, MarkRestart(r), w));
  }

  /** The record of a version that asked to be restarted. */
  function Asked(p: Probation): Probation {
    p.(restarts := if p.restarts <= p.restartsAllowed then p.restarts + 1 else p.restarts, restartPending := true)
  }

  lemma Marked(r: Root)
    requires Heard(r)
    ensures After(r, MarkRestart(r)) == r.(probation := Some(Asked(r.probation.value)))
  {
    ExecOne(r, PutProbation(Asked(r.probation.value)));
  }

  lemma AskedStart(r: Root, w: World)
    requires Heard(r) && Free(w) && Proper(r)
    requires There(r, w.sweep, r.probation.value.previous) && (Waiting(r) || InstallAfter(r).Some?)
    ensures Verdict(Some(Asked(r.probation.value)), r.current, true, true, true,
                    Smooth(r, MarkRestart(r), w), Heeded(r, MarkRestart(r), w))
  {
    Marked(r);
    var x := r.(probation := Some(Asked(r.probation.value)));
    Overwritten(r, x.probation.value, w.sweep);
    StartExactly(x, w);
  }

  lemma RestartVerdict(p: Probation, ok: bool, end: Root)
    requires p.status == Active && Verdict(Some(Asked(p)), p.version, true, true, true, ok, end)
    ensures Restarts(p, end)
  {
    var q := Asked(p);
    if p.restarts < p.restartsAllowed {
      assert !Due(q, p.version);
      assert Counts(q, p.version) == q.(restartPending := false);
    } else {
      assert Due(q, p.version);
      assert WentTo(q, end);
    }
  }

  /** Another word on record changes neither what runs nor what is there. */
  lemma Overwritten(r: Root, q: Probation, s: Sweep)
    requires Filed(r) && r.probation.Some? && Unconfirmed(r.probation.value) && Unconfirmed(q)
    requires q.previous == r.probation.value.previous
    ensures var x := r.(probation := Some(q));
            && Filed(x) && Lives(x) == Lives(r) && (There(x, s, q.previous) <==> There(r, s, q.previous))
            && (Waiting(x) <==> Waiting(r)) && InstallAfter(x) == InstallAfter(r)
  {
  }

  /** Nothing else is heard: not what is said of another version than the one on
      trial, nor of one whose trial is over. */
  lemma OthersAreUnheard(r: Root, v: Version, why: string)
    ensures (MarkHealthy(r, v) == DONE && MarkUnhealthy(r, v, why) == DONE)
            <==> !(r.probation.Some? && r.probation.value.version == v && r.probation.value.status == Active)
    ensures MarkRestart(r) == DONE
            <==> !(r.probation.Some? && r.probation.value.version == r.current && r.probation.value.status == Active)
  {
  }
}
