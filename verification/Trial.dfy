/** A version on probation: counting its starts, and going back to the version it
    replaced when it does not confirm that it works. */
module Trial {
  import opened Bytes
  import opened Journal
  import opened Install
  import opened Txn

  // Arming, on the updater's side.

  /** Starts and restarts a new version gets; no starts means no probation. */
  datatype Allowance = Allowance(attempts: nat, restarts: nat)

  /** The reason on record against a version; an update takes the empty string for
      none. */
  function BlockedReason(r: Root, v: Version): string {
    if r.probation.Some? && r.probation.value.blocked.Some? && r.probation.value.blocked.value.version == v
    then r.probation.value.blocked.value.reason
    else ""
  }

  predicate Unconfirmed(p: Probation) {
    p.status == Active || p.status == Unhealthy
  }

  /** What a rollback of the new version would go to: the live version, or, where
      that one has not passed itself, its own target. */
  function FallBack(r: Root, to: Version): Version {
    if r.probation.Some? && Unconfirmed(r.probation.value) && r.probation.value.version == r.current
       && r.probation.value.previous != to && r.probation.value.previous in r.dirs
    then r.probation.value.previous
    else r.current
  }

  /** The record of a version that is to show it works. */
  function OnProbation(r: Root, to: Version, allow: Allowance): Probation {
    Probation(to, FallBack(r, to), Active, 0, allow.attempts, 0, allow.restarts, false, "",
              if r.probation.Some? then r.probation.value.blocked else None)
  }

  /** A transaction leaves the record before it begins. */
  function Arm(r: Root, to: Version, allow: Allowance): Plan {
    if r.current == "" || allow.attempts == 0 then DONE
    else if r.probation.Some? && r.probation.value.status == Reverting then REFUSED
    else One(PutProbation(OnProbation(r, to, allow)))
  }

  /** The probation record as a transaction finds it when it begins. */
  function Armed(r: Root, to: Version, allow: Allowance): Option<Probation> {
    if Arm(r, to, allow).writes == [] then r.probation else Some(OnProbation(r, to, allow))
  }

  // What the application says.

  predicate OnTrial(r: Root, v: Version) {
    r.probation.Some? && r.probation.value.version == v && r.probation.value.status == Active
  }

  function MarkHealthy(r: Root, v: Version): Plan {
    if OnTrial(r, v)
    then One(PutProbation(r.probation.value.(status := Confirmed, restartPending := false)))
    else DONE
  }

  const UNHEALTHY := "the application reported itself unhealthy"

  function MarkUnhealthy(r: Root, v: Version, reason: string): Plan {
    if OnTrial(r, v)
    then One(PutProbation(r.probation.value.(status := Unhealthy, reason := if reason == "" then UNHEALTHY else reason)))
    else DONE
  }

  /** The next start is one the application asked for. */
  function MarkRestart(r: Root): Plan {
    if OnTrial(r, r.current)
    then
      var p := r.probation.value;
      One(PutProbation(p.(restarts := if p.restarts <= p.restartsAllowed then p.restarts + 1 else p.restarts,
                          restartPending := true)))
    else DONE
  }

  // What a start does.

  const RESTARTS := "asked to be restarted more often than allowed without confirming it is healthy"
  const UNCONFIRMED := "not confirmed healthy after the starts allowed"

  /** What a start decides about the version on probation. */
  datatype Outcome = Idle | Counted | Restarted | Reverts(reason: string)

  function Decide(r: Root): Outcome {
    if r.probation.None? then Idle
    else
      var p := r.probation.value;
      if p.status == Reverting then Reverts(p.reason)
      else if r.current != p.version then Idle
      else
        match p.status
        case Unhealthy => Reverts(p.reason)
        case Reverted => Reverts(p.reason)
        case Active =>
          if p.restartPending then (if p.restarts > p.restartsAllowed then Reverts(RESTARTS) else Restarted)
          else if p.attempts >= p.attemptsAllowed then Reverts(UNCONFIRMED)
          else Counted
        case _ => Idle
  }

  /** The start's step, given whether an instance holds the application lock. */
  function Settle(r: Root, running: bool): Plan {
    match Decide(r)
    case Idle => DONE
    case Counted => One(PutProbation(r.probation.value.(attempts := r.probation.value.attempts + 1)))
    case Restarted => One(PutProbation(r.probation.value.(restartPending := false)))
    case Reverts(reason) => if running then DONE else Revert(r, r.probation.value, reason)
  }

  function Stays(p: Probation, reason: string): Probation {
    p.(status := Kept, reason := reason + "; " + p.previous + " is no longer installed, so it stays")
  }

  function Gone(p: Probation, reason: string): Probation {
    p.(status := Reverted, reason := reason, restartPending := false, blocked := Some(Blocked(p.version, reason)))
  }

  /** Back to the version this one replaced. */
  function Revert(r: Root, p: Probation, reason: string): Plan {
    if p.previous !in r.dirs then
      (if p.status == Reverting then REFUSED else One(PutProbation(Stays(p, reason))))
    else
      Then(if p.status == Reverting then DONE else One(PutProbation(p.(status := Reverting, reason := reason))),
           Then(One(Point(p.previous)),
                Then(RestoreInstall(r, p.previous),
                     Then(One(PutProbation(Gone(p, reason))), RemoveVersion(p.version)))))
  }

  function RestoreInstall(r: Root, v: Version): Plan {
    if r.install.None? then REFUSED
    else if r.install.value.version == v then DONE
    else One(PutInstall(InstallState(r.install.value.name, v)))
  }

  // How long a version may go without confirming.

  /** What can happen to a version under observation, short of a verdict. */
  datatype Act = Started(running: bool) | Relaunched

  function Perform(r: Root, a: Act): Plan {
    match a
    case Started(running) => Settle(r, running)
    case Relaunched => MarkRestart(r)
  }

  /** How many starts of a run are decided in one particular way. */
  function Times(r: Root, acts: seq<Act>, o: Outcome): nat
    decreases |acts|
  {
    if acts == [] then 0
    else
      (if acts[0].Started? && Decide(r) == o then 1 else 0) + Times(After(r, Perform(r, acts[0])), acts[1..], o)
  }

  function AttemptsLeft(r: Root): nat {
    if r.probation.None? || r.probation.value.status != Active
       || r.probation.value.attempts >= r.probation.value.attemptsAllowed then 0
    else r.probation.value.attemptsAllowed - r.probation.value.attempts
  }

  function RestartsLeft(r: Root): nat {
    if r.probation.None? || r.probation.value.status != Active then 0
    else
      var p := r.probation.value;
      var left := p.restartsAllowed - p.restarts + (if p.restartPending then 1 else 0);
      if left < 0 then 0 else left
  }

  lemma ExecOne(r: Root, w: Write)
    ensures Exec(r, [w]) == Do(r, w)
  {
    assert [w][1..] == [];
  }

  /** Once a rollback is recorded, none of its later writes reopens the
      probation. */
  lemma {:induction false} NeverActive(r: Root, ws: seq<Write>)
    requires r.probation.Some? && r.probation.value.status != Active
    requires forall i :: 0 <= i < |ws| ==>
               !ws[i].DropProbation? && (ws[i].PutProbation? ==> ws[i].p.status != Active)
    ensures Exec(r, ws).probation.Some? && Exec(r, ws).probation.value.status != Active
    decreases |ws|
  {
    if ws != [] {
      NeverActive(Do(r, ws[0]), ws[1..]);
    }
  }

  lemma RevertWrites(r: Root, p: Probation, reason: string)
    requires p.previous in r.dirs
    ensures var ws := Revert(r, p, reason).writes;
            && (p.status != Reverting ==>
                  |ws| > 0 && ws[0] == PutProbation(p.(status := Reverting, reason := reason)))
            && forall i :: 0 <= i < |ws| ==>
                 !ws[i].DropProbation? && (ws[i].PutProbation? ==> ws[i].p.status != Active)
  {
  }

  lemma RevertLeavesActive(r: Root, reason: string)
    requires r.probation.Some?
    ensures var p := After(r, Revert(r, r.probation.value, reason)).probation;
            p.Some? && p.value.status != Active
  {
    var p := r.probation.value;
    var plan := Revert(r, p, reason);
    if p.previous !in r.dirs {
      if p.status != Reverting {
        ExecOne(r, PutProbation(Stays(p, reason)));
      }
    } else {
      RevertWrites(r, p, reason);
      if p.status == Reverting {
        NeverActive(r, plan.writes);
      } else {
        NeverActive(Do(r, plan.writes[0]), plan.writes[1..]);
      }
    }
  }

  /** What each act spends. */
  lemma ActSpends(r: Root, a: Act)
    ensures var r' := After(r, Perform(r, a));
            && AttemptsLeft(r') + (if a.Started? && Decide(r) == Counted then 1 else 0) <= AttemptsLeft(r)
            && RestartsLeft(r') + (if a.Started? && Decide(r) == Restarted then 1 else 0) <= RestartsLeft(r)
  {
    var plan := Perform(r, a);
    if |plan.writes| == 1 {
      ExecOne(r, plan.writes[0]);
      assert plan.writes == [plan.writes[0]];
    }
    if a.Started? && Decide(r).Reverts? && !a.running {
      RevertLeavesActive(r, Decide(r).reason);
    }
  }

  function Run(r: Root, acts: seq<Act>): Root
    decreases |acts|
  {
    if acts == [] then r else Run(After(r, Perform(r, acts[0])), acts[1..])
  }

  /** Over any interleaving of starts and restarts, with nobody confirming and
      nobody arming anew, the version is started at most as often as it has
      attempts left and restarted at most as often as it has restarts left. */
  lemma {:induction false} StartsAreBounded(r: Root, acts: seq<Act>)
    ensures Times(r, acts, Counted) + AttemptsLeft(Run(r, acts)) <= AttemptsLeft(r)
    ensures Times(r, acts, Restarted) + RestartsLeft(Run(r, acts)) <= RestartsLeft(r)
    decreases |acts|
  {
    if acts != [] {
      ActSpends(r, acts[0]);
      StartsAreBounded(After(r, Perform(r, acts[0])), acts[1..]);
    }
  }

  /** So a version that goes live on probation gets its allowance and no more, in
      whatever order it is spent; once spent, every further start that finds the
      version still on probation goes back to the one before it. */
  lemma ArmedStartsAreBounded(r: Root, to: Version, allow: Allowance, acts: seq<Act>)
    requires r.current != "" && allow.attempts > 0 && Arm(r, to, allow).ok
    ensures var live := After(r, Arm(r, to, allow)).(current := to);
            var end := Run(live, acts);
            && Times(live, acts, Counted) <= allow.attempts
            && Times(live, acts, Restarted) <= allow.restarts
            && ((Times(live, acts, Counted) == allow.attempts && Times(live, acts, Restarted) == allow.restarts
                 && OnTrial(end, end.current)) ==> Decide(end).Reverts?)
  {
    var w := Arm(r, to, allow).writes[0];
    ExecOne(r, w);
    StartsAreBounded(Do(r, w).(current := to), acts);
  }

  // Going back, cut anywhere.

  /** A version that is to go, the one to go back to, why, and whether the
      directory of the latter has every file in place. */
  datatype Reversal = Reversal(version: Version, previous: Version, reason: string, whole: bool)

  predicate Concerns(v: Reversal, r: Root) {
    && r.probation.Some? && r.probation.value.version == v.version && r.probation.value.previous == v.previous
    && v.version != v.previous && v.previous in r.dirs && r.dirs[v.previous] == v.whole && r.install.Some?
  }

  predicate GoingBack(v: Reversal, r: Root) {
    Concerns(v, r) && Decide(r) == Reverts(v.reason)
  }

  predicate WentBack(v: Reversal, r: Root) {
    && Concerns(v, r) && r.probation.value.status == Reverted
    && r.probation.value.blocked == Some(Blocked(v.version, v.reason))
    && r.current == v.previous && r.install.value.version == v.previous
  }

  /** A rollback that set out from r0 and is under way or done, whatever the
      journal says. The pointer stands where it stood or at the previous version,
      and a rollback that was recorded stays so until it is done. */
  ghost predicate OnTheWayBack(v: Reversal, r0: Root, r: Root) {
    && (GoingBack(v, r) || WentBack(v, r)) && r.journal == r0.journal
    && (r.current == r0.current || r.current == v.previous)
    && (r0.probation.Some? && r0.probation.value.status == Reverting ==>
          r.probation.value.status == Reverting || WentBack(v, r))
  }

  ghost function OnTheWay(v: Reversal, r0: Root): Root -> bool {
    (r: Root) => OnTheWayBack(v, r0, r)
  }

  /** From the rewritten install state on. */
  lemma RestoredRevert(v: Reversal, r0: Root, r: Root)
    requires OnTheWayBack(v, r0, r) && GoingBack(v, r) && r.probation.value.status == Reverting
    requires r.current == v.previous && r.install.value.version == v.previous
    ensures var p := Then(One(PutProbation(Gone(r.probation.value, v.reason))), RemoveVersion(v.version));
            p.ok && Always(OnTheWay(v, r0), r, p.writes) && WentBack(v, After(r, p))
  {
    var gone := Gone(r.probation.value, v.reason);
    var r1 := r.(probation := Some(gone));
    AlwaysOne(OnTheWay(v, r0), r, PutProbation(gone));
    AlwaysTwo(OnTheWay(v, r0), r1, Tear(v.version), Drop(v.version));
    AlwaysThen(OnTheWay(v, r0), r, One(PutProbation(gone)), RemoveVersion(v.version));
    AfterThen(r, One(PutProbation(gone)), RemoveVersion(v.version));
  }

  /** From the moved pointer on. */
  lemma PointedRevert(v: Reversal, r0: Root, r: Root)
    requires OnTheWayBack(v, r0, r) && GoingBack(v, r) && r.probation.value.status == Reverting
    requires r.current == v.previous
    ensures var p := Then(RestoreInstall(r, v.previous),
                          Then(One(PutProbation(Gone(r.probation.value, v.reason))), RemoveVersion(v.version)));
            p.ok && Always(OnTheWay(v, r0), r, p.writes) && WentBack(v, After(r, p))
  {
    var rest := Then(One(PutProbation(Gone(r.probation.value, v.reason))), RemoveVersion(v.version));
    var p := RestoreInstall(r, v.previous);
    if r.install.value.version == v.previous {
      RestoredRevert(v, r0, r);
      assert [] + rest.writes == rest.writes;
    } else {
      var i := InstallState(r.install.value.name, v.previous);
      var r1 := r.(install := Some(i));
      AlwaysOne(OnTheWay(v, r0), r, PutInstall(i));
      RestoredRevert(v, r0, r1);
      AlwaysThen(OnTheWay(v, r0), r, p, rest);
      AfterThen(r, p, rest);
    }
  }

  lemma RecordedRevert(v: Reversal, r0: Root, r: Root)
    requires OnTheWayBack(v, r0, r) && GoingBack(v, r) && r.probation.value.status == Reverting
    ensures var p := Revert(r, r.probation.value, v.reason);
            p.ok && Always(OnTheWay(v, r0), r, p.writes) && WentBack(v, After(r, p))
  {
    var p := r.probation.value;
    var r1 := r.(current := v.previous);
    AlwaysOne(OnTheWay(v, r0), r, Point(v.previous));
    PointedRevert(v, r0, r1);
    var rest := Then(RestoreInstall(r, v.previous),
                     Then(One(PutProbation(Gone(p, v.reason))), RemoveVersion(v.version)));
    AlwaysThen(OnTheWay(v, r0), r, One(Point(v.previous)), rest);
    AfterThen(r, One(Point(v.previous)), rest);
    var all := Then(One(Point(v.previous)), rest);
    assert [] + all.writes == all.writes;
  }

  lemma RecordedFirst(r: Root, p: Probation, reason: string)
    requires p.previous in r.dirs && p.status != Reverting
    ensures var q := p.(status := Reverting, reason := reason);
            Revert(r, p, reason) == Then(One(PutProbation(q)), Revert(r.(probation := Some(q)), q, reason))
  {
    var q := p.(status := Reverting, reason := reason);
    var rest := Revert(r.(probation := Some(q)), q, reason);
    assert Gone(p, reason) == Gone(q, reason);
    assert [] + rest.writes == rest.writes;
  }

  /** Cut anywhere, a rollback is under way or done, so that the next start goes
      on with it or finds it done. */
  lemma RevertKeeps(v: Reversal, r: Root)
    requires GoingBack(v, r)
    ensures var p := Revert(r, r.probation.value, v.reason);
            p.ok && Always(OnTheWay(v, r), r, p.writes) && WentBack(v, After(r, p))
  {
    var p := r.probation.value;
    if p.status == Reverting {
      RecordedRevert(v, r, r);
    } else {
      var q := p.(status := Reverting, reason := v.reason);
      var r1 := r.(probation := Some(q));
      AlwaysOne(OnTheWay(v, r), r, PutProbation(q));
      RecordedRevert(v, r, r1);
      var rest := Revert(r1, q, v.reason);
      RecordedFirst(r, p, v.reason);
      AlwaysThen(OnTheWay(v, r), r, One(PutProbation(q)), rest);
      AfterThen(r, One(PutProbation(q)), rest);
    }
  }

  /** The condition is exact: a recorded rollback finishes if and only if the
      previous version and an install state to rewrite are there. */
  lemma RevertStuck(r: Root)
    requires r.probation.Some? && r.probation.value.status == Reverting
    ensures Revert(r, r.probation.value, r.probation.value.reason).ok
            <==> r.probation.value.previous in r.dirs && r.install.Some?
  {
  }

  lemma RevertResult(r: Root, p: Probation, reason: string)
    requires p.previous in r.dirs && r.install.Some?
    ensures Revert(r, p, reason).ok
    ensures After(r, Revert(r, p, reason))
            == r.(probation := Some(Gone(p, reason)), current := p.previous, dirs := r.dirs - {p.version},
                  install := Some(InstallState(r.install.value.name, p.previous)))
  {
    var q := p.(status := Reverting, reason := reason);
    var p1 := if p.status == Reverting then DONE else One(PutProbation(q));
    var p3, p4, p5 := RestoreInstall(r, p.previous), One(PutProbation(Gone(p, reason))), RemoveVersion(p.version);
    var r1 := After(r, p1);
    ExecOne(r, PutProbation(q));
    ExecOne(r1, Point(p.previous));
    var r2 := Do(r1, Point(p.previous));
    ExecOne(r2, PutInstall(InstallState(r.install.value.name, p.previous)));
    var r3 := After(r2, p3);
    assert r3.install == Some(InstallState(r.install.value.name, p.previous));
    ExecOne(r3, PutProbation(Gone(p, reason)));
    var r4 := Do(r3, PutProbation(Gone(p, reason)));
    RemoveResult(r4, p.version);
    AfterThen(r3, p4, p5);
    AfterThen(r2, p3, Then(p4, p5));
    AfterThen(r1, One(Point(p.previous)), Then(p3, Then(p4, p5)));
    AfterThen(r, p1, Then(One(Point(p.previous)), Then(p3, Then(p4, p5))));
  }

  /** A rollback cut while the failed version is being removed, one write short. */
  lemma RevertTorn(r: Root, p: Probation, reason: string)
    requires p.previous in r.dirs && r.install.Some? && p.version in r.dirs
    ensures var plan := Revert(r, p, reason);
            && |plan.writes| > 0
            && Cut(r, plan, |plan.writes| - 1)
               == r.(probation := Some(Gone(p, reason)), current := p.previous, dirs := r.dirs[p.version := false],
                     install := Some(InstallState(r.install.value.name, p.previous)))
  {
    var q := p.(status := Reverting, reason := reason);
    var p1 := if p.status == Reverting then DONE else One(PutProbation(q));
    var p2, p3 := One(Point(p.previous)), RestoreInstall(r, p.previous);
    var p4, p5 := One(PutProbation(Gone(p, reason))), RemoveVersion(p.version);
    ExecOne(r, PutProbation(q));
    var r1 := After(r, p1);
    ExecOne(r1, Point(p.previous));
    var r2 := Do(r1, Point(p.previous));
    ExecOne(r2, PutInstall(InstallState(r.install.value.name, p.previous)));
    var r3 := After(r2, p3);
    assert r3.install == Some(InstallState(r.install.value.name, p.previous));
    ExecOne(r3, PutProbation(Gone(p, reason)));
    var r4 := Do(r3, PutProbation(Gone(p, reason)));
    assert p5.writes[..1] == [Tear(p.version)];
    ExecOne(r4, Tear(p.version));
    CutThen(r3, p4, p5, 1);
    CutThen(r2, p3, Then(p4, p5), 2);
    CutThen(r1, p2, Then(p3, Then(p4, p5)), |p3.writes| + 2);
    CutThen(r, p1, Then(p2, Then(p3, Then(p4, p5))), |p3.writes| + 3);
  }
}
