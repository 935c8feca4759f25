/** What can happen beneath an update that waits: runs of the whole machine to
    roots recovery refuses, or makes a torn version live on. */
module Beneath {
  import opened Bytes
  import opened Journal
  import opened Install
  import opened Txn
  import opened Trial
  import opened Apply
  import opened Launch
  import opened Machine
  import opened Retries
  import Atomicity

  // Runs, moment by moment.

  lemma HistoryStep(r: Root, m: Moment, rest: seq<Moment>)
    ensures var x := Cut(r, PlanOf(r, m.event), m.cut);
            Exec(r, History(r, [m] + rest)) == Exec(x, History(x, rest))
  {
    var run := [m] + rest;
    assert run[0] == m && run[1..] == rest;
    var ws := PlanOf(r, m.event).writes;
    var done := ws[..if m.cut < |ws| then m.cut else |ws|];
    ExecConcat(r, done, History(Exec(r, done), rest));
  }

  ghost predicate Leads(r: Root, m: Moment, r': Root) {
    r' == Cut(r, PlanOf(r, m.event), m.cut)
  }

  lemma ThreeMoments(r0: Root, m1: Moment, r1: Root, m2: Moment, r2: Root, m3: Moment, r3: Root)
    requires Leads(r0, m1, r1) && Leads(r1, m2, r2) && Leads(r2, m3, r3)
    ensures Exec(r0, History(r0, [m1, m2, m3])) == r3
  {
    var rest := [m3] + [];
    HistoryStep(r0, m1, [m2] + rest);
    HistoryStep(r1, m2, rest);
    HistoryStep(r2, m3, []);
    assert [m1] + ([m2] + rest) == [m1, m2, m3];
  }

  lemma FourMoments(r0: Root, m1: Moment, r1: Root, m2: Moment, r2: Root, m3: Moment, r3: Root, m4: Moment, r4: Root)
    requires Leads(r0, m1, r1) && Leads(r1, m2, r2) && Leads(r2, m3, r3) && Leads(r3, m4, r4)
    ensures Exec(r0, History(r0, [m1, m2, m3, m4])) == r4
  {
    ThreeMoments(r1, m2, r2, m3, r3, m4, r4);
    HistoryStep(r0, m1, [m2, m3, m4]);
    assert [m1] + [m2, m3, m4] == [m1, m2, m3, m4];
  }

  lemma InFull(r: Root, e: Event) returns (m: Moment)
    ensures m.event == e && Leads(r, m, After(r, PlanOf(r, e)))
  {
    var p := PlanOf(r, e);
    m := Moment(e, |p.writes|);
    assert p.writes[..|p.writes|] == p.writes;
  }

  // Up to the rollback.

  /** The live version is to go, and an update that brings no probation of its own
      will be deferred on top of it. One that brought a probation would replace
      the record of the version that is to go. */
  ghost predicate Sets(r0: Root, a: Request, v: Reversal) {
    && Atomicity.AtRest(r0) && GoingBack(v, r0) && r0.current == v.version != ""
    && a.name != "" && a.to != "" && a.to !in r0.dirs && a.flushed && a.defers && a.allow.attempts == 0
    && !Refuses(After(r0, Recover(r0)), a)
  }

  /** An update waits on top of the version that is to go. */
  ghost predicate WaitsOnTop(v: Reversal, r: Root) {
    && Filed(r) && Waiting(r) && GoingBack(v, r) && Whole(r, v.version)
    && Last(r.journal).from == v.version != "" && Last(r.journal).to !in {v.previous, v.version, ""}
  }

  lemma DeferredBeneath(r0: Root, a: Request, v: Reversal) returns (r: Root)
    requires Sets(r0, a, v)
    ensures r == After(r0, Update(r0, a)) && WaitsOnTop(v, r)
  {
    r := Atomicity.UpdateDefers(r0, a);
    assert v.previous in r.dirs && v.version in r.dirs;
  }

  // A start that skips the update and goes back in full.

  const SKIP := World(false, true, NOTHING_SWEPT)

  lemma SkipIsRevert(v: Reversal, r: Root)
    requires WaitsOnTop(v, r)
    ensures PlanOf(r, Starting(SKIP)) == Revert(r, r.probation.value, v.reason)
  {
    assert [] + Settle(r, false).writes == Settle(r, false).writes;
  }

  lemma GoesBack(v: Reversal, r: Root) returns (m: Moment, r': Root)
    requires WaitsOnTop(v, r)
    ensures m.event.Starting? && Leads(r, m, r')
    ensures r'.journal == r.journal && r'.current == v.previous && r'.dirs == r.dirs - {v.version}
  {
    SkipIsRevert(v, r);
    RevertResult(r, r.probation.value, v.reason);
    m := InFull(r, Starting(SKIP));
    r' := After(r, PlanOf(r, Starting(SKIP)));
  }

  lemma FirstRecord(r: Root) returns (m: Moment)
    requires Filed(r) && Waiting(r)
    ensures m.event.Starting? && Leads(r, m, Migrating(r))
  {
    m := Moment(Starting(LOCKED), 1);
    FirstWriteOfResume(r, LOCKED);
  }

  /** Recovery refuses and writes nothing, so it does so for good. */
  ghost predicate Refused(r: Root) {
    !Recover(r).ok && Recover(r).writes == []
  }

  lemma OriginGone(r: Root)
    requires Filed(r) && Waiting(r) && !Returnable(r, Last(r.journal)) && r.current != Last(r.journal).to
    ensures Refused(Migrating(r))
  {
    ResumeParts(r);
    RecoverExactly(Migrating(r));
  }

  lemma StrandsBeneath(v: Reversal, r: Root) returns (m2: Moment, r2: Root, m3: Moment, r3: Root)
    requires WaitsOnTop(v, r)
    ensures m2.event.Starting? && m3.event.Starting? && Leads(r, m2, r2) && Leads(r2, m3, r3) && Refused(r3)
  {
    m2, r2 := GoesBack(v, r);
    m3 := FirstRecord(r2);
    r3 := Migrating(r2);
    OriginGone(r2);
  }

  /** The run to a root recovery refuses: the update is deferred; a start skips it
      and goes back, which removes the version the update started from; the next
      start resumes it and is cut behind its first record. */
  lemma RevertBeneathDeferral(r0: Root, a: Request, v: Reversal) returns (run: seq<Moment>)
    requires Sets(r0, a, v)
    ensures |run| == 3 && run[0].event == Updating(a) && run[1].event.Starting? && run[2].event.Starting?
    ensures Refused(Exec(r0, History(r0, run)))
  {
    var r1 := DeferredBeneath(r0, a, v);
    var m1 := InFull(r0, Updating(a));
    var m2, r2, m3, r3 := StrandsBeneath(v, r1);
    ThreeMoments(r0, m1, r1, m2, r2, m3, r3);
    run := [m1, m2, m3];
  }

  // A start that skips the update and is cut while it removes that version.

  lemma GoesBackTorn(v: Reversal, r: Root) returns (m: Moment, r': Root)
    requires WaitsOnTop(v, r)
    ensures m.event.Starting? && Leads(r, m, r')
    ensures r'.journal == r.journal && r'.current == v.previous && r'.dirs == r.dirs[v.version := false]
  {
    SkipIsRevert(v, r);
    RevertTorn(r, r.probation.value, v.reason);
    m := Moment(Starting(SKIP), |PlanOf(r, Starting(SKIP)).writes| - 1);
    r' := Cut(r, PlanOf(r, Starting(SKIP)), m.cut);
  }

  /** A version runs that has lost some of its files. */
  predicate RunsTorn(r: Root) {
    r.current != "" && r.current in r.dirs && !r.dirs[r.current]
  }

  lemma ReturnsTorn(v: Reversal, r: Root) returns (m: Moment, r': Root)
    requires Filed(r) && Waiting(r) && r.current != Last(r.journal).to && r.current != Last(r.journal).from
    requires Last(r.journal).from == v.version != "" && v.version in r.dirs && !r.dirs[v.version]
    requires Last(r.journal).to != v.version
    ensures m.event == Recovering && Leads(Migrating(r), m, r')
    ensures Recover(Migrating(r)).ok && r'.current == v.version && RunsTorn(r')
  {
    ResumeParts(r);
    RecoverExactly(Migrating(r));
    m := InFull(Migrating(r), Recovering);
    r' := After(Migrating(r), Recover(Migrating(r)));
  }

  lemma TearsBeneath(v: Reversal, r: Root)
    returns (m2: Moment, r2: Root, m3: Moment, r3: Root, m4: Moment, r4: Root)
    requires WaitsOnTop(v, r)
    ensures m2.event.Starting? && m3.event.Starting? && m4.event == Recovering
    ensures Leads(r, m2, r2) && Leads(r2, m3, r3) && Leads(r3, m4, r4)
    ensures Recover(r3).ok && r4.current == v.version && RunsTorn(r4)
  {
    m2, r2 := GoesBackTorn(v, r);
    m3 := FirstRecord(r2);
    r3 := Migrating(r2);
    m4, r4 := ReturnsTorn(v, r2);
  }

  /** The run to a torn version that runs: the same, but the start that goes back
      is cut while it removes the version the update started from. What is left
      of that is a directory, so recovery returns to it, and succeeds. */
  lemma TornBeneathDeferral(r0: Root, a: Request, v: Reversal) returns (run: seq<Moment>)
    requires Sets(r0, a, v)
    ensures |run| == 4 && run[0].event == Updating(a) && run[1].event.Starting? && run[2].event.Starting?
    ensures run[3].event == Recovering
    ensures var end := Exec(r0, History(r0, run));
            end.current == v.version && RunsTorn(end) && !Atomicity.AtRest(end)
  {
    var r1 := DeferredBeneath(r0, a, v);
    var m1 := InFull(r0, Updating(a));
    var m2, r2, m3, r3, m4, r4 := TearsBeneath(v, r1);
    FourMoments(r0, m1, r1, m2, r2, m3, r3, m4, r4);
    run := [m1, m2, m3, m4];
  }
}
