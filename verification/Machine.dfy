/** Everything that writes to an install root, in any order and cut anywhere, and
    the laws each single durable write keeps. */
module Machine {
  import opened Bytes
  import opened Journal
  import opened Install
  import opened Txn
  import opened Trial
  import opened Apply
  import opened Launch

  // Removing the installation, as far as the root's records show it.

  function AllRemovals(listing: seq<Version>, stuck: set<Version>): Plan {
    Plan(Removals(listing, {}, stuck), forall v <- listing :: v !in stuck)
  }

  /** The journal goes last: until then it says what is going on. */
  const REMOVE_META := Plan([DropNext, DropProbation, SweepPending, SweepStaging, DropInstall, DropJournal], true)

  function RemoveAll(listing: seq<Version>, stuck: set<Version>): Plan {
    Then(One(Unpoint), Then(AllRemovals(listing, stuck), REMOVE_META))
  }

  predicate Ending(r: Root) {
    r.journal != [] && Last(r.journal).state == State.Uninstalling
  }

  /** The last record of all: it names the last transaction, or the install state
      where there was none. */
  function Farewell(r: Root, i: Option<InstallState>): Record
    requires r.journal != [] || i.Some?
  {
    if r.journal != [] then Last(r.journal).(state := State.Uninstalling)
    else Record(State.Uninstalling, i.value.name, "", i.value.version)
  }

  ghost function Remove(r: Root, listing: seq<Version>, stuck: set<Version>): Plan {
    if r.journal != [] && !Accepted(r.journal) then REFUSED
    else if Ending(r) then RemoveAll(listing, stuck)
    else if r.journal == [] && r.install.None? then REFUSED
    else
      var settled := if r.journal == [] then DONE else Recover(r);
      var r1 := After(r, settled);
      Then(settled,
           if r1.journal == [] && r.install.None? then REFUSED
           else Then(Note(r1, Farewell(r1, r.install)), RemoveAll(listing, stuck)))
  }

  // The machine.

  datatype Event =
    | Updating(a: Request)
    | Recovering
    | Undoing
    | Resuming
    | Collecting(s: Sweep)
    | Starting(w: World)
    | Confirming(v: Version)
    | Complaining(v: Version, why: string)
    | Restarting
    | TakingLauncher
    | Removing(listing: seq<Version>, stuck: set<Version>)

  ghost function PlanOf(r: Root, e: Event): Plan {
    match e
    case Updating(a) => Update(r, a)
    case Recovering => Recover(r)
    case Undoing => Rollback(r)
    case Resuming => ResumeDeferred(r)
    case Collecting(s) => Collect(r, s)
    case Starting(w) => Start(r, w)
    case Confirming(v) => MarkHealthy(r, v)
    case Complaining(v, why) => MarkUnhealthy(r, v, why)
    case Restarting => MarkRestart(r)
    case TakingLauncher => One(DropNext)
    case Removing(listing, stuck) => Remove(r, listing, stuck)
  }

  // The laws.

  /** `current` is absent or names a directory that exists. */
  predicate Runnable(r: Root) {
    r.current == "" || r.current in r.dirs
  }

  /** No write touches the directory of the version that runs. */
  predicate KeepsLive(r: Root, r': Root) {
    r.current != "" && r'.current == r.current && Whole(r, r.current) ==> Whole(r', r.current)
  }

  predicate SoundRecord(p: Probation) {
    && p.version != p.previous
    && (p.status in {Unhealthy, Reverting, Reverted} ==> p.reason != "")
    && (p.blocked.Some? ==> p.blocked.value.reason != "")
  }

  /** The journal is believed when read back, and the probation record is one that
      is accepted and never blames a version without a reason. */
  ghost predicate Sane(r: Root) {
    Filed(r) && (r.probation.Some? ==> SoundRecord(r.probation.value))
  }

  /** A committed transaction whose launcher is not promoted yet. */
  predicate Owed(r: Root) {
    && r.journal != [] && Last(r.journal).state == Committed
    && r.current == Last(r.journal).to && r.current in r.pending
  }

  predicate KeepsLaunchers(r: Root, r': Root) {
    // the next launcher is always one a committed, live transaction staged
    && (r'.next.Some? && r'.next != r.next ==> Owed(r) && r'.next.value == r.pending[r.current])
    // and is not lost before that, unless another version is live
    && (Owed(r) ==>
          || (Owed(r') && r'.current == r.current && r'.pending[r'.current] == r.pending[r.current])
          || r'.next == Some(r.pending[r.current])
          || r'.current != r.current)
  }

  /** Blocks are kept or replaced by a newer one, and a rollback under way is
      only ever finished. */
  predicate KeepsVerdicts(r: Root, r': Root) {
    r.probation.Some? && !Ending(r) ==>
      && r'.probation.Some?
      && var p, p' := r.probation.value, r'.probation.value;
      && (p.blocked.Some? ==> p'.blocked == p.blocked
                              || (p.status == Reverting && p'.blocked == Some(Blocked(p.version, p.reason))))
      && (p.status == Reverting ==> p' == p || p' == Gone(p, p.reason))
  }

  predicate RespectsBlock(r: Root, r': Root) {
    r'.journal != r.journal && r'.journal != [] && Last(r'.journal).state == Begin
    && r.probation.Some? && r.probation.value.blocked.Some?
    ==> Last(r'.journal).to != r.probation.value.blocked.value.version
  }

  /** What one durable write may do to a root. */
  ghost predicate Lawful(r: Root, r': Root) {
    && (Runnable(r) ==> Runnable(r')) && KeepsLive(r, r')
    && Sane(r')
    && KeepsLaunchers(r, r')
    && KeepsVerdicts(r, r')
    && RespectsBlock(r, r')
  }

  // A guard for each kind of write, which makes it lawful.

  predicate GuardsRecord(r: Root, p': Probation) {
    && SoundRecord(p')
    && (r.probation.Some? ==>
          var p := r.probation.value;
          && (p.blocked.Some? ==> p'.blocked == p.blocked
                                  || (p.status == Reverting && p'.blocked == Some(Blocked(p.version, p.reason))))
          && (p.status == Reverting ==> p' == p || p' == Gone(p, p.reason)))
  }

  /** The history is the old one with one more record, or a new one. */
  predicate Grows(before: seq<Record>, h: seq<Record>) {
    h != [] && Append(before, Last(h)) == Some(h)
  }

  predicate Safe(r: Root, w: Write) {
    match w
    case SetJournal(h) =>
      !Owed(r) && Grows(r.journal, h) && (h != [] && Last(h).state == Begin ==> BlockedReason(r, Last(h).to) == "")
    case DropJournal => !Owed(r)
    case Point(v) => v in r.dirs
    case Tear(v) => v != r.current || v == ""
    case Drop(v) => v != r.current || v == ""
    case PutPending(_, _) => !Owed(r)
    case DropPending(_) => !Owed(r)
    case SweepPending => !Owed(r)
    case Promote(v) => v in r.pending ==> Owed(r) && r.current == v
    case PutProbation(p) => GuardsRecord(r, p)
    case DropProbation => Ending(r)
    case _ => true
  }

  lemma SafeIsLawful(r: Root, w: Write)
    requires Sane(r) && Safe(r, w)
    ensures Lawful(r, Do(r, w))
  {
    if w.SetJournal? {
      AppendKeepsGrown(r.journal, Last(w.h));
    }
  }

  ghost predicate Guarded(r: Root, ws: seq<Write>)
    decreases |ws|
  {
    ws != [] ==> Safe(r, ws[0]) && Guarded(Do(r, ws[0]), ws[1..])
  }

  lemma {:induction false} GuardedConcat(r: Root, a: seq<Write>, b: seq<Write>)
    requires Guarded(r, a) && Guarded(Exec(r, a), b)
    ensures Guarded(r, a + b)
    decreases |a|
  {
    if a == [] {
      assert a + b == b;
    } else {
      assert (a + b)[0] == a[0] && (a + b)[1..] == a[1..] + b;
      GuardedConcat(Do(r, a[0]), a[1..], b);
    }
  }

  lemma GuardedThen(r: Root, p: Plan, q: Plan)
    requires Guarded(r, p.writes) && (p.ok ==> Guarded(After(r, p), q.writes))
    ensures Guarded(r, Then(p, q).writes)
  {
    if p.ok {
      GuardedConcat(r, p.writes, q.writes);
    }
  }

  lemma GuardedOne(r: Root, w: Write)
    requires Safe(r, w)
    ensures Guarded(r, [w]) && Exec(r, [w]) == Do(r, w)
  {
    assert [w][1..] == [];
  }

  lemma GuardedTwo(r: Root, a: Write, b: Write)
    requires Safe(r, a) && Safe(Do(r, a), b)
    ensures Guarded(r, [a, b]) && Exec(r, [a, b]) == Do(Do(r, a), b)
  {
    assert [a, b][1..] == [b];
    GuardedOne(Do(r, a), b);
  }

  lemma {:induction false} GuardedPrefix(r: Root, ws: seq<Write>, n: nat)
    requires Guarded(r, ws) && n <= |ws|
    ensures Guarded(r, ws[..n])
    decreases n
  {
    if n > 0 {
      GuardedPrefix(Do(r, ws[0]), ws[1..], n - 1);
      assert ws[..n][0] == ws[0] && ws[..n][1..] == ws[1..][..n - 1];
    }
  }

  // Recovery and undoing.

  lemma CleanGuarded(r: Root)
    requires !Owed(r)
    ensures Guarded(r, CleanOrphans().writes)
  {
    GuardedTwo(r, SweepPending, SweepStaging);
  }

  /** Behind a commit record, for the version that is live. */
  lemma PromoteGuarded(r: Root, v: Version)
    requires v in r.pending ==> Owed(r) && r.current == v
    ensures Guarded(r, PromoteLauncher(r, v).writes)
    ensures !Owed(After(r, PromoteLauncher(r, v))) || v != r.current
  {
    if v in r.pending {
      if r.next.Some? && r.next.value.name != r.pending[v].name {
        GuardedTwo(r, DropNext, Promote(v));
      } else {
        GuardedOne(r, Promote(v));
      }
    }
  }

  lemma SettleGuarded(r: Root, t: Record)
    requires r.journal != [] && t == Last(r.journal) && t.state == Committed
    ensures Guarded(r, SettleCommitted(r, t).writes)
  {
    if t.to in r.pending && r.current == t.to {
      PromoteGuarded(r, t.to);
      CleanGuarded(After(r, PromoteLauncher(r, t.to)));
      GuardedThen(r, PromoteLauncher(r, t.to), CleanOrphans());
    } else {
      CleanGuarded(r);
    }
  }

  /** A record within a transaction that is not over. */
  lemma NoteGuarded(r: Root, t: Record)
    requires !Owed(r) && t.state != Begin
    ensures var p := Note(r, t);
            && Guarded(r, p.writes)
            && (p.ok ==> (var r' := After(r, p);
                          r'.journal != [] && Last(r'.journal) == t && r' == r.(journal := r'.journal)))
  {
    var h := Append(r.journal, t);
    if h.Some? {
      GuardedOne(r, SetJournal(h.value));
    }
  }

  lemma RemoveGuarded(r: Root, v: Version)
    requires v != r.current
    ensures Guarded(r, RemoveVersion(v).writes)
    ensures var r' := After(r, RemoveVersion(v)); r' == r.(dirs := r'.dirs)
  {
    GuardedTwo(r, Tear(v), Drop(v));
  }

  lemma RestoreGuarded(r: Root, t: Record)
    ensures Guarded(r, RestorePointer(r, t).writes)
    ensures RestorePointer(r, t).ok ==> After(r, RestorePointer(r, t)) == r.(current := t.from)
  {
    if t.from == "" {
      GuardedOne(r, Unpoint);
    } else if r.current != t.from && t.from in r.dirs {
      GuardedOne(r, Point(t.from));
    }
  }

  lemma UndoGuarded(r: Root, t: Record)
    requires r.journal != [] && t == Last(r.journal) && t.state != Committed
    ensures Guarded(r, Undo(r, t).writes)
  {
    var p1 := RestorePointer(r, t);
    var p2 := if t.to != t.from then RemoveVersion(t.to) else DONE;
    var p3 := Note(r, t.(state := RolledBack));
    RestoreGuarded(r, t);
    if p1.ok {
      var r1 := After(r, p1);
      if t.to != t.from {
        RemoveGuarded(r1, t.to);
      }
      var r2 := After(r1, p2);
      assert Note(r2, t.(state := RolledBack)) == p3;
      NoteGuarded(r2, t.(state := RolledBack));
      if p3.ok {
        CleanGuarded(After(r2, p3));
      }
      GuardedThen(r2, p3, CleanOrphans());
      GuardedThen(r1, p2, Then(p3, CleanOrphans()));
    }
    GuardedThen(r, p1, Then(p2, Then(p3, CleanOrphans())));
  }

  lemma CompleteSwappedGuarded(r: Root, t: Record)
    requires r.journal != [] && SameTransaction(t, Last(r.journal)) && Last(r.journal).state != Committed
    ensures Guarded(r, CompleteSwapped(r, t).writes)
  {
    var i := PutInstall(InstallState(t.name, t.to));
    var committed := t.(state := Committed);
    var p2, p3 := Note(r, committed), SettleCommitted(r, committed);
    GuardedOne(r, i);
    var r1 := Do(r, i);
    assert Note(r1, committed) == p2;
    NoteGuarded(r1, committed);
    if p2.ok {
      var r2 := After(r1, p2);
      assert SettleCommitted(r2, committed) == p3;
      SettleGuarded(r2, committed);
    }
    GuardedThen(r1, p2, p3);
    GuardedThen(r, One(i), Then(p2, p3));
  }

  lemma CompleteGuarded(r: Root, t: Record)
    requires r.journal != [] && t == Last(r.journal) && t.state != Committed
    ensures Guarded(r, Complete(r, t).writes)
  {
    if r.current == t.to {
      if t.state == Migrated {
        var swapped := Note(r, t.(state := Swapped));
        NoteGuarded(r, t.(state := Swapped));
        if swapped.ok {
          CompleteSwappedGuarded(After(r, swapped), t);
        }
        GuardedThen(r, swapped, CompleteSwapped(After(r, swapped), t));
      } else {
        CompleteSwappedGuarded(r, t);
      }
    }
  }

  lemma RecoverGuarded(r: Root)
    ensures Guarded(r, Recover(r).writes)
  {
    if r.journal == [] {
      CleanGuarded(r);
    } else if Accepted(r.journal) {
      var t := Last(r.journal);
      match t.state
      case Committed => SettleGuarded(r, t);
      case RolledBack => CleanGuarded(r);
      case Uninstalling =>
      case Deferred =>
      case Swapped => CompleteGuarded(r, t);
      case Migrated =>
        if r.current == t.to {
          CompleteGuarded(r, t);
        } else {
          UndoGuarded(r, t);
        }
      case Begin => UndoGuarded(r, t);
      case Staged => UndoGuarded(r, t);
    }
  }

  lemma RollbackGuarded(r: Root)
    ensures Guarded(r, Rollback(r).writes)
  {
    if r.journal == [] {
      CleanGuarded(r);
    } else if Accepted(r.journal) {
      var t := Last(r.journal);
      match t.state
      case Committed => SettleGuarded(r, t);
      case RolledBack => CleanGuarded(r);
      case Uninstalling =>
      case _ => UndoGuarded(r, t);
    }
  }

  lemma ResumeGuarded(r: Root)
    ensures Guarded(r, ResumeDeferred(r).writes)
  {
    if r.journal != [] && Accepted(r.journal) && Last(r.journal).state == Deferred {
      var t := Last(r.journal);
      var p1 := Note(r, t.(state := Migrated));
      NoteGuarded(r, t.(state := Migrated));
      var r1 := After(r, p1);
      var p2 := if t.to in r.dirs then One(Point(t.to)) else REFUSED;
      var r2 := After(r1, p2);
      var p3 := Note(r2, t.(state := Swapped));
      var r3 := After(r2, p3);
      var p4 := Complete(r3, t.(state := Swapped));
      if p1.ok {
        if p2.ok {
          GuardedOne(r1, Point(t.to));
          NoteGuarded(r2, t.(state := Swapped));
          if p3.ok {
            CompleteGuarded(r3, t.(state := Swapped));
          }
          GuardedThen(r2, p3, p4);
        }
        GuardedThen(r1, p2, Then(p3, p4));
      }
      GuardedThen(r, p1, Then(p2, Then(p3, p4)));
    }
  }

  // An update.

  lemma {:induction false} RemovalsGuarded(r: Root, listing: seq<Version>, keep: set<Version>, stuck: set<Version>)
    requires r.current in keep || r.current == ""
    ensures Guarded(r, Removals(listing, keep, stuck))
    ensures var r' := Exec(r, Removals(listing, keep, stuck)); r' == r.(dirs := r'.dirs)
    decreases |listing|
  {
    if listing != [] {
      var v := listing[0];
      var ws, rest := Removal(v, keep, stuck), Removals(listing[1..], keep, stuck);
      if v !in keep {
        if v in stuck {
          GuardedOne(r, Tear(v));
        } else {
          GuardedTwo(r, Tear(v), Drop(v));
        }
      }
      RemovalsGuarded(Exec(r, ws), listing[1..], keep, stuck);
      GuardedConcat(r, ws, rest);
      ExecConcat(r, ws, rest);
    }
  }

  lemma CollectGuarded(r: Root, s: Sweep)
    ensures Guarded(r, Collect(r, s).writes)
  {
    if r.current != "" {
      RemovalsGuarded(r, s.listing, {r.current} + Pins(r) + s.window, s.stuck);
    }
  }

  lemma TidyGuarded(r: Root, a: Request)
    requires r.journal != [] && Last(r.journal).state == Committed && Last(r.journal).to == a.to == r.current
    ensures Guarded(r, Tidy(r, a).writes)
  {
    var promote := PromoteLauncher(r, a.to);
    var p := Promotion(r, a);
    PromoteGuarded(r, a.to);
    if a.failed.Some? {
      GuardedPrefix(r, promote.writes, |p.writes|);
    } else {
      CleanGuarded(After(r, promote));
      GuardedThen(r, promote, CleanOrphans());
    }
    CollectGuarded(After(r, p), a.sweep);
    GuardedThen(r, p, Collect(After(r, p), a.sweep));
  }

  predicate Opened(r: Root, a: Request, t: Record) {
    r.journal != [] && Last(r.journal).state != Committed && t.to == a.to
  }

  lemma CommitGuarded(r: Root, a: Request, t: Record)
    requires Opened(r, a, t) && r.current == a.to
    ensures Guarded(r, Commit(r, a, t).writes)
  {
    var i := PutInstall(InstallState(a.name, a.to));
    GuardedOne(r, i);
    var r1 := Do(r, i);
    var committed := Note(r1, t.(state := Committed));
    NoteGuarded(r1, t.(state := Committed));
    var r2 := After(r1, committed);
    if committed.ok {
      TidyGuarded(r2, a);
    }
    GuardedThen(r1, committed, Tidy(r2, a));
    GuardedThen(r, One(i), Then(committed, Tidy(r2, a)));
  }

  lemma SwitchGuarded(r: Root, a: Request, t: Record)
    requires Opened(r, a, t)
    ensures Guarded(r, Switch(r, a, t).writes)
  {
    var swap := Swap(r, a.to);
    var r1 := After(r, swap);
    var swapped := Note(r1, t.(state := Swapped));
    var r2 := After(r1, swapped);
    if swap.ok {
      GuardedOne(r, Point(a.to));
      NoteGuarded(r1, t.(state := Swapped));
      if swapped.ok {
        CommitGuarded(r2, a, t);
      }
      GuardedThen(r1, swapped, Commit(r2, a, t));
    }
    GuardedThen(r, swap, Then(swapped, Commit(r2, a, t)));
  }

  lemma QuiesceGuarded(r: Root, a: Request, t: Record)
    requires Opened(r, a, t)
    ensures Guarded(r, Quiesce(r, a, t).writes)
  {
    if a.defers {
      NoteGuarded(r, t.(state := Deferred));
      GuardedThen(r, Note(r, t.(state := Deferred)), REFUSED);
    } else {
      var migrated := Note(r, t.(state := Migrated));
      NoteGuarded(r, t.(state := Migrated));
      if migrated.ok {
        SwitchGuarded(After(r, migrated), a, t);
      }
      GuardedThen(r, migrated, Switch(After(r, migrated), a, t));
    }
  }

  lemma BuildGuarded(r: Root, a: Request)
    requires !Owed(r) && r.journal != [] && Last(r.journal).state != Committed
    ensures var ws := [ClearStage(a.to), MakeStage(a.to), DropPending(a.to)]
                      + (if a.launcher.Some? then [PutPending(a.to, a.launcher.value)] else []);
            && Guarded(r, ws)
            && var r' := Exec(r, ws); r' == r.(staged := r'.staged, pending := r'.pending)
  {
    var front := [ClearStage(a.to), MakeStage(a.to)] + [DropPending(a.to)];
    GuardedTwo(r, ClearStage(a.to), MakeStage(a.to));
    var r2 := Do(Do(r, ClearStage(a.to)), MakeStage(a.to));
    GuardedOne(r2, DropPending(a.to));
    GuardedConcat(r, [ClearStage(a.to), MakeStage(a.to)], [DropPending(a.to)]);
    ExecConcat(r, [ClearStage(a.to), MakeStage(a.to)], [DropPending(a.to)]);
    assert front == [ClearStage(a.to), MakeStage(a.to), DropPending(a.to)];
    var r3 := Do(r2, DropPending(a.to));
    if a.launcher.Some? {
      GuardedOne(r3, PutPending(a.to, a.launcher.value));
      GuardedConcat(r, front, [PutPending(a.to, a.launcher.value)]);
      ExecConcat(r, front, [PutPending(a.to, a.launcher.value)]);
    } else {
      assert front + [] == front;
    }
  }

  lemma StageGuarded(r: Root, a: Request)
    requires r.journal != [] && Last(r.journal).state != Committed && a.to != r.current
    ensures Guarded(r, Stage(r, a).writes)
    ensures After(r, Stage(r, a)).journal == r.journal && After(r, Stage(r, a)).current == r.current
  {
    var p := Plan([ClearStage(a.to), MakeStage(a.to), DropPending(a.to)]
                  + (if a.launcher.Some? then [PutPending(a.to, a.launcher.value)] else []), true);
    BuildGuarded(r, a);
    var r1 := After(r, p);
    if a.to in r.dirs {
      GuardedThen(r, p, REFUSED);
      AfterThen(r, p, REFUSED);
    } else {
      GuardedOne(r1, Place(a.to));
      if a.flushed {
        GuardedThen(r, p, One(Place(a.to)));
        AfterThen(r, p, One(Place(a.to)));
      } else {
        var q := Plan([Place(a.to), Tear(a.to), Drop(a.to)], false);
        GuardedTwo(Do(r1, Place(a.to)), Tear(a.to), Drop(a.to));
        GuardedConcat(r1, [Place(a.to)], [Tear(a.to), Drop(a.to)]);
        ExecConcat(r1, [Place(a.to)], [Tear(a.to), Drop(a.to)]);
        assert [Place(a.to)] + [Tear(a.to), Drop(a.to)] == q.writes;
        GuardedThen(r, p, q);
        AfterThen(r, p, q);
      }
    }
  }

  lemma FillGuarded(r: Root, a: Request, t: Record)
    requires Opened(r, a, t) && a.to != r.current
    ensures Guarded(r, Fill(r, a, t).writes)
  {
    var stage := Stage(r, a);
    StageGuarded(r, a);
    var r1 := After(r, stage);
    var staged := Note(r1, t.(state := Staged));
    NoteGuarded(r1, t.(state := Staged));
    var r2 := After(r1, staged);
    if staged.ok {
      QuiesceGuarded(r2, a, t);
    }
    GuardedThen(r1, staged, Quiesce(r2, a, t));
    GuardedThen(r, stage, Then(staged, Quiesce(r2, a, t)));
  }

  lemma TransactGuarded(r: Root, a: Request)
    requires !Owed(r) && BlockedReason(r, a.to) == "" && a.to != r.current
    ensures Guarded(r, Transact(r, a).writes)
  {
    var t := Record(Begin, a.name, r.current, a.to);
    var begun := Note(r, t);
    if begun.ok {
      GuardedOne(r, begun.writes[0]);
      assert begun.writes == [begun.writes[0]];
      FillGuarded(After(r, begun), a, t);
    }
    GuardedThen(r, begun, Fill(After(r, begun), a, t));
  }

  lemma ProceedGuarded(r: Root, a: Request)
    requires Sane(r) && !Owed(r) && BlockedReason(r, a.to) == "" && a.to != r.current
    ensures Guarded(r, Proceed(r, a).writes)
  {
    var armed := Arm(r, a.to, a.allow);
    if armed.writes != [] {
      GuardedOne(r, armed.writes[0]);
      assert armed.writes == [armed.writes[0]];
    }
    if armed.ok {
      TransactGuarded(After(r, armed), a);
    }
    GuardedThen(r, armed, Transact(After(r, armed), a));
  }

  // Recovery pays what is owed before anything new begins.

  ghost predicate EndsClean(p: Plan) {
    p.ok ==> exists ws :: p.writes == ws + [SweepPending, SweepStaging]
  }

  lemma EndsCleanThen(p: Plan, q: Plan)
    requires EndsClean(q)
    ensures EndsClean(Then(p, q))
  {
    if p.ok && q.ok {
      var ws :| q.writes == ws + [SweepPending, SweepStaging];
      assert p.writes + q.writes == (p.writes + ws) + [SweepPending, SweepStaging];
    }
  }

  lemma CleanEndsClean()
    ensures EndsClean(CleanOrphans())
  {
    assert CleanOrphans().writes == [] + [SweepPending, SweepStaging];
  }

  lemma SettleEndsClean(r: Root, t: Record)
    ensures EndsClean(SettleCommitted(r, t))
  {
    CleanEndsClean();
    EndsCleanThen(PromoteLauncher(r, t.to), CleanOrphans());
  }

  lemma UndoEndsClean(r: Root, t: Record)
    ensures EndsClean(Undo(r, t))
  {
    var p2 := if t.to != t.from then RemoveVersion(t.to) else DONE;
    var p3 := Note(r, t.(state := RolledBack));
    CleanEndsClean();
    EndsCleanThen(p3, CleanOrphans());
    EndsCleanThen(p2, Then(p3, CleanOrphans()));
    EndsCleanThen(RestorePointer(r, t), Then(p2, Then(p3, CleanOrphans())));
  }

  lemma CompleteSwappedEndsClean(r: Root, t: Record)
    ensures EndsClean(CompleteSwapped(r, t))
  {
    var committed := t.(state := Committed);
    SettleEndsClean(r, committed);
    EndsCleanThen(Note(r, committed), SettleCommitted(r, committed));
    EndsCleanThen(One(PutInstall(InstallState(t.name, t.to))), Then(Note(r, committed), SettleCommitted(r, committed)));
  }

  lemma CompleteEndsClean(r: Root, t: Record)
    ensures EndsClean(Complete(r, t))
  {
    var swapped := Note(r, t.(state := Swapped));
    CompleteSwappedEndsClean(r, t);
    CompleteSwappedEndsClean(After(r, swapped), t);
    EndsCleanThen(swapped, CompleteSwapped(After(r, swapped), t));
  }

  lemma RecoverPays(r: Root)
    requires Recover(r).ok
    ensures !Owed(After(r, Recover(r)))
  {
    CleanEndsClean();
    if r.journal != [] && Accepted(r.journal) {
      SettleEndsClean(r, Last(r.journal));
      UndoEndsClean(r, Last(r.journal));
      CompleteEndsClean(r, Last(r.journal));
    }
    if EndsClean(Recover(r)) {
      var ws :| Recover(r).writes == ws + [SweepPending, SweepStaging];
      ExecConcat(r, ws, [SweepPending, SweepStaging]);
      GuardlessTwo(Exec(r, ws), SweepPending, SweepStaging);
    }
  }

  lemma GuardlessTwo(r: Root, a: Write, b: Write)
    ensures Exec(r, [a, b]) == Do(Do(r, a), b)
  {
    assert [a, b][1..] == [b] && [b][1..] == [];
    assert Exec(Do(r, a), [b]) == Do(Do(r, a), b);
  }

  lemma {:induction false} GuardedSane(r: Root, ws: seq<Write>)
    requires Sane(r) && Guarded(r, ws)
    ensures Sane(Exec(r, ws)) && (Runnable(r) ==> Runnable(Exec(r, ws)))
    decreases |ws|
  {
    if ws != [] {
      SafeIsLawful(r, ws[0]);
      GuardedSane(Do(r, ws[0]), ws[1..]);
    }
  }

  lemma UpdateGuarded(r: Root, a: Request)
    requires Sane(r)
    ensures Guarded(r, Update(r, a).writes)
  {
    var recovered := Recover(r);
    RecoverGuarded(r);
    GuardedSane(r, recovered.writes);
    var r1 := After(r, recovered);
    if recovered.ok && !Refuses(r1, a) {
      RecoverPays(r);
      ProceedGuarded(r1, a);
    }
    GuardedThen(r, recovered, Attempt(r1, a));
  }

  // A version on probation.

  lemma RevertRest(r: Root, p: Probation, reason: string)
    requires Sane(r) && r.probation == Some(p.(status := Reverting, reason := reason)) && p.previous in r.dirs
    ensures Guarded(r, Then(One(Point(p.previous)),
                            Then(RestoreInstall(r, p.previous),
                                 Then(One(PutProbation(Gone(p, reason))), RemoveVersion(p.version)))).writes)
  {
    var p2, p3, p4 := RestoreInstall(r, p.previous), One(PutProbation(Gone(p, reason))), RemoveVersion(p.version);
    GuardedOne(r, Point(p.previous));
    var r1 := Do(r, Point(p.previous));
    if p2.writes != [] {
      GuardedOne(r1, p2.writes[0]);
      assert p2.writes == [p2.writes[0]];
    }
    var r2 := After(r1, p2);
    GuardedOne(r2, PutProbation(Gone(p, reason)));
    RemoveGuarded(Do(r2, PutProbation(Gone(p, reason))), p.version);
    GuardedThen(r2, p3, p4);
    GuardedThen(r1, p2, Then(p3, p4));
    GuardedThen(r, One(Point(p.previous)), Then(p2, Then(p3, p4)));
  }

  lemma RevertGuarded(r: Root, reason: string)
    requires Sane(r) && Decide(r) == Reverts(reason)
    ensures Guarded(r, Revert(r, r.probation.value, reason).writes)
  {
    var p := r.probation.value;
    assert reason != "" by {
      assert |RESTARTS| > 0 && |UNCONFIRMED| > 0;
    }
    if p.previous !in r.dirs {
      if p.status != Reverting {
        GuardedOne(r, PutProbation(Stays(p, reason)));
      }
    } else {
      var q := p.(status := Reverting, reason := reason);
      var first := if p.status == Reverting then DONE else One(PutProbation(q));
      var r1 := r.(probation := Some(q));
      if p.status != Reverting {
        GuardedOne(r, PutProbation(q));
      }
      assert After(r, first) == r1;
      RevertRest(r1, p, reason);
      GuardedThen(r, first,
                  Then(One(Point(p.previous)),
                       Then(RestoreInstall(r1, p.previous),
                            Then(One(PutProbation(Gone(p, reason))), RemoveVersion(p.version)))));
    }
  }

  lemma TrialGuarded(r: Root, running: bool)
    requires Sane(r)
    ensures Guarded(r, Settle(r, running).writes)
  {
    match Decide(r)
    case Idle =>
    case Counted => GuardedOne(r, Settle(r, running).writes[0]);
    case Restarted => GuardedOne(r, Settle(r, running).writes[0]);
    case Reverts(reason) => RevertGuarded(r, reason);
  }

  lemma MarksGuarded(r: Root, v: Version, why: string)
    requires Sane(r)
    ensures Guarded(r, MarkHealthy(r, v).writes) && Guarded(r, MarkUnhealthy(r, v, why).writes)
    ensures Guarded(r, MarkRestart(r).writes)
  {
    if OnTrial(r, v) {
      assert |UNHEALTHY| > 0;
      GuardedOne(r, MarkHealthy(r, v).writes[0]);
      GuardedOne(r, MarkUnhealthy(r, v, why).writes[0]);
    }
    if OnTrial(r, r.current) {
      GuardedOne(r, MarkRestart(r).writes[0]);
    }
  }

  /** A whole start: recovery, the deferred update, the collection, probation. */
  lemma StartGuarded(r: Root, w: World)
    requires Sane(r)
    ensures Guarded(r, Start(r, w).writes)
  {
    var recovered := Recover(r);
    RecoverGuarded(r);
    GuardedSane(r, recovered.writes);
    var r1 := After(r, recovered);
    if Waiting(r1) && w.resumes {
      var resumed := ResumeDeferred(r1);
      ResumeGuarded(r1);
      GuardedSane(r1, resumed.writes);
      var r2 := After(r1, resumed);
      var swept := Collect(r2, w.sweep);
      CollectGuarded(r2, w.sweep);
      GuardedSane(r2, swept.writes);
      TrialGuarded(After(r2, swept), false);
      GuardedThen(r2, swept, Settle(After(r2, swept), false));
      GuardedThen(r1, resumed, Then(swept, Settle(After(r2, swept), false)));
    } else {
      TrialGuarded(r1, !w.reverts);
    }
    GuardedThen(r, recovered, Continue(r1, w));
  }

  // Uninstalling.

  lemma MetaGuarded(r: Root)
    requires Ending(r)
    ensures Guarded(r, REMOVE_META.writes)
  {
    var a, b, c := [DropNext, DropProbation], [SweepPending, SweepStaging], [DropInstall, DropJournal];
    GuardedTwo(r, DropNext, DropProbation);
    var r1 := r.(next := None, probation := None);
    GuardedTwo(r1, SweepPending, SweepStaging);
    var r2 := r1.(pending := map[], staged := {});
    GuardedTwo(r2, DropInstall, DropJournal);
    GuardedConcat(r1, b, c);
    GuardedConcat(r, a, b + c);
    MetaWrites(a, b, c);
  }

  lemma MetaWrites(a: seq<Write>, b: seq<Write>, c: seq<Write>)
    requires a == [DropNext, DropProbation] && b == [SweepPending, SweepStaging] && c == [DropInstall, DropJournal]
    ensures REMOVE_META.writes == a + (b + c)
  {
  }

  lemma RemoveAllGuarded(r: Root, listing: seq<Version>, stuck: set<Version>)
    requires Ending(r)
    ensures Guarded(r, RemoveAll(listing, stuck).writes)
  {
    GuardedOne(r, Unpoint);
    var r1 := Do(r, Unpoint);
    var all := AllRemovals(listing, stuck);
    RemovalsGuarded(r1, listing, {}, stuck);
    MetaGuarded(After(r1, all));
    GuardedThen(r1, all, REMOVE_META);
    GuardedThen(r, One(Unpoint), Then(all, REMOVE_META));
  }

  lemma RemoveIsGuarded(r: Root, listing: seq<Version>, stuck: set<Version>)
    requires Sane(r)
    ensures Guarded(r, Remove(r, listing, stuck).writes)
  {
    if Ending(r) {
      RemoveAllGuarded(r, listing, stuck);
    } else if Remove(r, listing, stuck) != REFUSED {
      var settled := if r.journal == [] then DONE else Recover(r);
      RecoverGuarded(r);
      var r1 := After(r, settled);
      var rest := if r1.journal == [] && r.install.None? then REFUSED
                  else Then(Note(r1, Farewell(r1, r.install)), RemoveAll(listing, stuck));
      if settled.ok && rest != REFUSED {
        if r.journal != [] {
          RecoverPays(r);
        }
        FarewellGuarded(r1, Farewell(r1, r.install), listing, stuck);
      }
      GuardedThen(r, settled, rest);
    }
  }

  lemma FarewellGuarded(r: Root, t: Record, listing: seq<Version>, stuck: set<Version>)
    requires !Owed(r) && t.state == State.Uninstalling
    ensures Guarded(r, Then(Note(r, t), RemoveAll(listing, stuck)).writes)
  {
    NoteGuarded(r, t);
    if Note(r, t).ok {
      RemoveAllGuarded(After(r, Note(r, t)), listing, stuck);
    }
    GuardedThen(r, Note(r, t), RemoveAll(listing, stuck));
  }

  // The whole machine.

  lemma EventGuarded(r: Root, e: Event)
    requires Sane(r)
    ensures Guarded(r, PlanOf(r, e).writes)
  {
    match e
    case Updating(a) => UpdateGuarded(r, a);
    case Recovering => RecoverGuarded(r);
    case Undoing => RollbackGuarded(r);
    case Resuming => ResumeGuarded(r);
    case Collecting(s) => CollectGuarded(r, s);
    case Starting(w) => StartGuarded(r, w);
    case Confirming(v) => MarksGuarded(r, v, "");
    case Complaining(v, why) => MarksGuarded(r, v, why);
    case Restarting => MarksGuarded(r, "", "");
    case TakingLauncher => GuardedOne(r, DropNext);
    case Removing(listing, stuck) => RemoveIsGuarded(r, listing, stuck);
  }

  /** Something that happened to the root, cut after some of its writes. */
  datatype Moment = Moment(event: Event, cut: nat)

  /** Every durable write of a run, in order. */
  ghost function History(r: Root, run: seq<Moment>): seq<Write>
    decreases |run|
  {
    if run == [] then []
    else
      var ws := PlanOf(r, run[0].event).writes;
      var done := ws[..if run[0].cut < |ws| then run[0].cut else |ws|];
      done + History(Exec(r, done), run[1..])
  }

  lemma {:induction false} HistoryGuarded(r: Root, run: seq<Moment>)
    requires Sane(r)
    ensures Guarded(r, History(r, run))
    decreases |run|
  {
    if run != [] {
      var ws := PlanOf(r, run[0].event).writes;
      var n := if run[0].cut < |ws| then run[0].cut else |ws|;
      EventGuarded(r, run[0].event);
      GuardedPrefix(r, ws, n);
      GuardedSane(r, ws[..n]);
      HistoryGuarded(Exec(r, ws[..n]), run[1..]);
      GuardedConcat(r, ws[..n], History(Exec(r, ws[..n]), run[1..]));
    }
  }

  lemma {:induction false} GuardedLawful(r: Root, ws: seq<Write>, k: nat)
    requires Sane(r) && Guarded(r, ws) && k < |ws|
    ensures Lawful(Exec(r, ws[..k]), Exec(r, ws[..k + 1]))
    decreases k
  {
    SafeIsLawful(r, ws[0]);
    assert ws[..k + 1][0] == ws[0] && ws[..k + 1][1..] == ws[1..][..k];
    if k == 0 {
      assert ws[..0] == [] && ws[1..][..0] == [];
    } else {
      GuardedLawful(Do(r, ws[0]), ws[1..], k - 1);
      assert ws[..k][0] == ws[0] && ws[..k][1..] == ws[1..][..k - 1];
    }
  }

  /** In every state any run reaches, at every crash point of every operation,
      `current` is absent or names a version directory that exists. */
  lemma NeverDangles(r: Root, run: seq<Moment>)
    requires Sane(r) && Runnable(r)
    ensures Runnable(Exec(r, History(r, run))) && Sane(Exec(r, History(r, run)))
  {
    HistoryGuarded(r, run);
    GuardedSane(r, History(r, run));
  }

  /** And every durable write of every run keeps the laws: the next launcher comes
      from a committed and live transaction, blocked versions stay blocked and
      are never begun, and a rollback under way is only ever finished. */
  lemma EveryWriteIsLawful(r: Root, run: seq<Moment>, k: nat)
    requires Sane(r) && k < |History(r, run)|
    ensures Lawful(Exec(r, History(r, run)[..k]), Exec(r, History(r, run)[..k + 1]))
  {
    HistoryGuarded(r, run);
    GuardedLawful(r, History(r, run), k);
  }

  ghost predicate Paid(r: Root, ws: seq<Write>, v: Version, l: Launcher) {
    exists n: nat :: n <= |ws| && (Exec(r, ws[..n]).next == Some(l) || Exec(r, ws[..n]).current != v)
  }

  lemma {:induction false} OwedIsPaid(r: Root, ws: seq<Write>)
    requires Sane(r) && Guarded(r, ws) && Owed(r)
    ensures var l, end := r.pending[r.current], Exec(r, ws);
            || (Owed(end) && end.current == r.current && end.pending[end.current] == l)
            || Paid(r, ws, r.current, l)
    decreases |ws|
  {
    if ws != [] {
      SafeIsLawful(r, ws[0]);
      var l, r1 := r.pending[r.current], Do(r, ws[0]);
      assert ws[..1] == [ws[0]] && [ws[0]][1..] == [];
      assert Exec(r, ws[..1]) == r1;
      if r1.next == Some(l) || r1.current != r.current {
        assert Paid(r, ws, r.current, l);
      } else {
        OwedIsPaid(r1, ws[1..]);
        if Paid(r1, ws[1..], r.current, l) {
          var n: nat :| n <= |ws| - 1
            && (Exec(r1, ws[1..][..n]).next == Some(l) || Exec(r1, ws[1..][..n]).current != r.current);
          assert ws[..n + 1][0] == ws[0] && ws[..n + 1][1..] == ws[1..][..n];
          assert Paid(r, ws, r.current, l);
        }
      }
    }
  }

  /** A committed transaction's launcher is never lost, over any run: at the end
      it is still pending, or at some point it was promoted, or at some point
      another version was live. */
  lemma LauncherNeverLost(r: Root, run: seq<Moment>)
    requires Sane(r) && Owed(r)
    ensures var ws := History(r, run);
            var l, end := r.pending[r.current], Exec(r, ws);
            || (Owed(end) && end.current == r.current && end.pending[end.current] == l)
            || Paid(r, ws, r.current, l)
  {
    HistoryGuarded(r, run);
    OwedIsPaid(r, History(r, run));
  }
}
