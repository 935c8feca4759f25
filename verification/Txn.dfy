/** The update transaction seen from its journal: recovery after a crash, undoing
    in process, and finishing what was deferred. Each is a plan over the install
    root, so cutting one anywhere is cutting its plan. */
module Txn {
  import opened Bytes
  import opened Journal
  import opened Install

  // The pieces.

  function Note(r: Root, rec: Record): Plan {
    match Append(r.journal, rec)
    case None => REFUSED
    case Some(h) => One(SetJournal(h))
  }

  function CleanOrphans(): Plan {
    Plan([SweepPending, SweepStaging], true)
  }

  function RemoveVersion(v: Version): Plan {
    Plan([Tear(v), Drop(v)], true)
  }

  /** A pending launcher becomes the one the next start swaps in; one staged
      earlier under another name is dropped first. */
  function PromoteLauncher(r: Root, v: Version): Plan {
    if v !in r.pending then DONE
    else if r.next.Some? && r.next.value.name != r.pending[v].name then Plan([DropNext, Promote(v)], true)
    else One(Promote(v))
  }

  function SettleCommitted(r: Root, last: Record): Plan {
    if last.to in r.pending && r.current == last.to
    then Then(PromoteLauncher(r, last.to), CleanOrphans())
    else CleanOrphans()
  }

  /** The pointer, back at `from`; refused if that would leave it dangling. */
  function RestorePointer(r: Root, last: Record): Plan {
    if last.from == "" then One(Unpoint)
    else if r.current == last.from then DONE
    else if last.from !in r.dirs then REFUSED
    else One(Point(last.from))
  }

  /** Undoes a transaction that has not committed. */
  function Undo(r: Root, last: Record): Plan {
    Then(RestorePointer(r, last),
         Then(if last.to != last.from then RemoveVersion(last.to) else DONE,
              Then(Note(r, last.(state := RolledBack)), CleanOrphans())))
  }

  /** Forwards from a pointer that stands at the new version: the swap is recorded
      if it was not, then install state and commit. */
  function Complete(r: Root, last: Record): Plan {
    if r.current != last.to then REFUSED
    else if last.state == Migrated then
      var swapped := Note(r, last.(state := Swapped));
      Then(swapped, CompleteSwapped(After(r, swapped), last))
    else CompleteSwapped(r, last)
  }

  function CompleteSwapped(r: Root, last: Record): Plan {
    var committed := last.(state := Committed);
    Then(One(PutInstall(InstallState(last.name, last.to))),
         Then(Note(r, committed), SettleCommitted(r, committed)))
  }

  // The operations.

  /** What recovery does on a start. */
  ghost function Recover(r: Root): Plan {
    if r.journal == [] then CleanOrphans()
    else if !Accepted(r.journal) then REFUSED
    else
      var last := Last(r.journal);
      match last.state
      case Committed => SettleCommitted(r, last)
      case RolledBack => CleanOrphans()
      case Uninstalling => REFUSED
      case Deferred => DONE
      case Swapped => Complete(r, last)
      case Migrated => if r.current == last.to then Complete(r, last) else Undo(r, last)
      case Begin => Undo(r, last)
      case Staged => Undo(r, last)
  }

  /** What a failed apply does before it returns: whatever state the transaction
      reached, a completed swap included, is undone. */
  ghost function Rollback(r: Root): Plan {
    if r.journal == [] then CleanOrphans()
    else if !Accepted(r.journal) then REFUSED
    else
      var last := Last(r.journal);
      match last.state
      case Committed => SettleCommitted(r, last)
      case RolledBack => CleanOrphans()
      case Uninstalling => REFUSED
      case _ => Undo(r, last)
  }

  /** Finishes what was staged and deferred: migrate, swap, commit. */
  ghost function ResumeDeferred(r: Root): Plan {
    if r.journal == [] then DONE
    else if !Accepted(r.journal) then REFUSED
    else if Last(r.journal).state != Deferred then DONE
    else
      var last := Last(r.journal);
      var migrated := Note(r, last.(state := Migrated));
      var swap := if last.to in r.dirs then One(Point(last.to)) else REFUSED;
      var moved := After(After(r, migrated), swap);
      var swapped := Note(moved, last.(state := Swapped));
      Then(migrated, Then(swap, Then(swapped, Complete(After(moved, swapped), last.(state := Swapped)))))
  }

  // What every crash point of a transaction looks like.

  /** The version directory is there with every file in place. */
  predicate Whole(r: Root, v: Version) {
    v in r.dirs && r.dirs[v]
  }

  predicate AtFrom(r: Root, t: Record) {
    r.current == t.from && (t.from == "" || Whole(r, t.from))
  }

  predicate AtTo(r: Root, t: Record) {
    r.current == t.to && Whole(r, t.to)
  }

  /** What a transaction is about: its identity, the launcher it carries, if any,
      what it found when it began (the launcher already waiting for the next
      start, the install state, the version directories, the probation record)
      and the versions a collection at its end may remove. */
  datatype Brief = Brief(
    name: string, from: Version, to: Version,
    launcher: Option<Launcher>, next: Option<Launcher>, install: Option<InstallState>,
    dirs: map<Version, bool>, probation: Option<Probation>, swept: set<Version>)

  function PendingFor(r: Root, v: Version): Option<Launcher> {
    if v in r.pending then Some(r.pending[v]) else None
  }

  /** Which launcher the next start takes, once the transaction has settled. */
  function NextOf(c: Brief): Option<Launcher> {
    if c.launcher.Some? then c.launcher else c.next
  }

  /** The carried launcher is pending from the end of staging to the commit, and
      from then on pending or promoted. */
  predicate Carried(c: Brief, r: Root)
    requires r.journal != []
  {
    var t := Last(r.journal);
    match t.state
    case Begin => r.next == c.next
    case RolledBack => r.next == c.next
    case Committed =>
      || (PendingFor(r, t.to) == c.launcher && r.next == c.next)
      || (PendingFor(r, t.to) == c.launcher && c.launcher.Some? && r.next == None)
      || (PendingFor(r, t.to) == None && r.next == NextOf(c))
    case _ => r.next == c.next && PendingFor(r, t.to) == c.launcher
  }

  /** Every other version directory is as the transaction found it. */
  ghost predicate KeepsOthers(c: Brief, dirs: map<Version, bool>) {
    forall v :: v != c.to ==> (v in dirs <==> v in c.dirs) && (v in c.dirs ==> dirs[v] == c.dirs[v])
  }

  /** Every other version directory that the collection spares is, and no new
      ones have come. */
  ghost predicate KeepsSpared(c: Brief, dirs: map<Version, bool>) {
    forall v :: v != c.to ==>
      && (v in dirs ==> v in c.dirs)
      && (v in c.dirs && v !in c.swept ==> v in dirs && dirs[v] == c.dirs[v])
  }

  ghost predicate Spared(c: Brief, r: Root)
    requires r.journal != []
  {
    && r.probation == c.probation
    && (if Last(r.journal).state == Committed then KeepsSpared(c, r.dirs) else KeepsOthers(c, r.dirs))
  }

  /** The transaction in the journal and the tree agree as far as the record
      reaches. */
  ghost predicate Consistent(c: Brief, r: Root) {
    && r.journal != [] && Grown(r.journal)
    && var t := Last(r.journal);
    && t.name == c.name != "" && t.to == c.to != "" && t.from == c.from != c.to
    && Carried(c, r) && Spared(c, r)
    && match t.state
       case Begin => AtFrom(r, t) && r.install == c.install
       case Staged => AtFrom(r, t) && r.install == c.install
       case Deferred => AtFrom(r, t) && Whole(r, t.to) && r.install == c.install
       case Migrated =>
         (AtFrom(r, t) || (AtTo(r, t) && (t.from == "" || Whole(r, t.from)))) && r.install == c.install
       case Swapped =>
         && AtTo(r, t) && (t.from == "" || Whole(r, t.from))
         && (r.install == c.install || r.install == Some(InstallState(t.name, t.to)))
       case Committed => AtTo(r, t) && r.install == Some(InstallState(t.name, t.to))
       case RolledBack => AtFrom(r, t) && t.to !in r.dirs && r.install == c.install
       case Uninstalling => false
  }

  ghost function Inv(c: Brief): Root -> bool {
    (r: Root) => Consistent(c, r)
  }

  // Undoing.

  /** Cleaning up is for transactions that are over, and for a committed one only
      after its launcher was promoted. */
  lemma CleanKeeps(c: Brief, r: Root)
    requires Consistent(c, r)
    requires Last(r.journal).state == RolledBack || (Last(r.journal).state == Committed && r.next == NextOf(c))
    ensures Always(Inv(c), r, CleanOrphans().writes)
    ensures After(r, CleanOrphans()) == r.(pending := map[], staged := {})
  {
    AlwaysTwo(Inv(c), r, SweepPending, SweepStaging);
  }

  lemma NoteKeeps(r: Root, s: State)
    requires r.journal != [] && Grown(r.journal)
    requires Last(r.journal).to != "" && Last(r.journal).name != ""
    requires s in Allowed(Last(r.journal).state) && s != Begin
    ensures var t := Last(r.journal).(state := s);
            && Note(r, t) == One(SetJournal(r.journal + [t]))
            && Grown(r.journal + [t]) && Last(r.journal + [t]) == t
            && After(r, Note(r, t)) == r.(journal := r.journal + [t])
  {
    var t := Last(r.journal).(state := s);
    GrownAppend(r.journal, t);
    var w := SetJournal(r.journal + [t]);
    assert Exec(r, [w]) == Exec(Do(r, w), [w][1..]) == Do(r, w);
  }

  /** The version a rollback removes is not the one in use. */
  lemma RemoveKeeps(c: Brief, r: Root, v: Version)
    requires Consistent(c, r) && v == Last(r.journal).to
    requires Last(r.journal).state in {Begin, Staged, Migrated} && AtFrom(r, Last(r.journal))
    ensures Always(Inv(c), r, RemoveVersion(v).writes)
    ensures After(r, RemoveVersion(v)) == r.(dirs := r.dirs - {v})
  {
    var t := Last(r.journal);
    AlwaysTwo(Inv(c), r, Tear(v), Drop(v));
    assert Do(Do(r, Tear(v)), Drop(v)).dirs == r.dirs - {v};
  }

  /** The state an undone transaction ends in. */
  ghost function Undone(r: Root): Root
    requires r.journal != []
  {
    var t := Last(r.journal);
    r.(journal := r.journal + [t.(state := RolledBack)], current := t.from, dirs := r.dirs - {t.to},
       pending := map[], staged := {})
  }

  lemma UndoneDirs(c: Brief, r: Root)
    requires Consistent(c, r) && Last(r.journal).state != Committed
    ensures Undone(r).dirs == c.dirs - {c.to}
  {
    assert (r.dirs - {c.to}).Keys == (c.dirs - {c.to}).Keys;
  }

  /** With the new version's directory gone, the rollback is recorded and the
      litter swept. */
  lemma UnmadeKeeps(c: Brief, r: Root)
    requires Consistent(c, r) && AtFrom(r, Last(r.journal)) && Last(r.journal).to !in r.dirs
    requires Last(r.journal).state in {Begin, Staged, Migrated}
    ensures var p := Then(Note(r, Last(r.journal).(state := RolledBack)), CleanOrphans());
            && p.ok && Always(Inv(c), r, p.writes)
            && After(r, p) == r.(journal := r.journal + [Last(r.journal).(state := RolledBack)],
                                 pending := map[], staged := {})
            && Consistent(c, After(r, p))
  {
    var t := Last(r.journal);
    var note := Note(r, t.(state := RolledBack));
    NoteKeeps(r, RolledBack);
    var r1 := r.(journal := r.journal + [t.(state := RolledBack)]);
    AlwaysOne(Inv(c), r, SetJournal(r1.journal));
    CleanKeeps(c, r1);
    AlwaysThen(Inv(c), r, note, CleanOrphans());
    AfterThen(r, note, CleanOrphans());
    AlwaysCut(Inv(c), r, Then(note, CleanOrphans()), 0);
  }

  /** From wherever a crash left the pointer at the old version, undoing
      succeeds, is consistent at every point, and leaves no trace. */
  lemma UndoKeeps(c: Brief, r: Root)
    requires Consistent(c, r) && AtFrom(r, Last(r.journal))
    requires Last(r.journal).state in {Begin, Staged, Migrated}
    ensures Undo(r, Last(r.journal)).ok
    ensures Always(Inv(c), r, Undo(r, Last(r.journal)).writes)
    ensures After(r, Undo(r, Last(r.journal))) == Undone(r)
    ensures Consistent(c, Undone(r))
  {
    var t := Last(r.journal);
    var p1, p2 := RestorePointer(r, t), RemoveVersion(t.to);
    if t.from == "" {
      AlwaysOne(Inv(c), r, Unpoint);
    }
    assert After(r, p1) == r;
    RemoveKeeps(c, r, t.to);
    var r2 := r.(dirs := r.dirs - {t.to});
    AlwaysCut(Inv(c), r, p2, 0);
    UnmadeKeeps(c, r2);
    var rest := Then(Note(r, t.(state := RolledBack)), CleanOrphans());
    assert Note(r2, t.(state := RolledBack)) == Note(r, t.(state := RolledBack));
    AlwaysThen(Inv(c), r, p2, rest);
    AfterThen(r, p2, rest);
    AlwaysThen(Inv(c), r, p1, Then(p2, rest));
    AfterThen(r, p1, Then(p2, rest));
  }

  // Finishing.

  lemma PromoteKeeps(c: Brief, r: Root, v: Version)
    requires Consistent(c, r) && Last(r.journal).state == Committed
    requires v == Last(r.journal).to && v in r.pending
    ensures PromoteLauncher(r, v).ok && Always(Inv(c), r, PromoteLauncher(r, v).writes)
    ensures After(r, PromoteLauncher(r, v)) == r.(next := Some(r.pending[v]), pending := r.pending - {v})
  {
    if r.next.Some? && r.next.value.name != r.pending[v].name {
      AlwaysTwo(Inv(c), r, DropNext, Promote(v));
    } else {
      AlwaysOne(Inv(c), r, Promote(v));
    }
  }

  /** The state a committed transaction settles in: its launcher, if it carried
      one, is the next one, and the staging area is empty. */
  ghost function Settled(r: Root): Root
    requires r.journal != []
  {
    var t := Last(r.journal);
    r.(next := if t.to in r.pending && r.current == t.to then Some(r.pending[t.to]) else r.next,
       pending := map[], staged := {})
  }

  lemma SettleKeeps(c: Brief, r: Root)
    requires Consistent(c, r) && Last(r.journal).state == Committed
    ensures SettleCommitted(r, Last(r.journal)).ok
    ensures Always(Inv(c), r, SettleCommitted(r, Last(r.journal)).writes)
    ensures After(r, SettleCommitted(r, Last(r.journal))) == Settled(r)
  {
    var t := Last(r.journal);
    if t.to in r.pending {
      PromoteKeeps(c, r, t.to);
      var r1 := r.(next := Some(r.pending[t.to]), pending := r.pending - {t.to});
      CleanKeeps(c, r1);
      AlwaysThen(Inv(c), r, PromoteLauncher(r, t.to), CleanOrphans());
      AfterThen(r, PromoteLauncher(r, t.to), CleanOrphans());
    } else {
      CleanKeeps(c, r);
    }
  }

  /** The state a swapped transaction is finished in. */
  ghost function Finished(r: Root): Root
    requires r.journal != []
  {
    var t := Last(r.journal);
    Settled(r.(journal := r.journal + [t.(state := Committed)], install := Some(InstallState(t.name, t.to))))
  }

  /** From the written install state on. */
  lemma CommitKeeps(c: Brief, r: Root)
    requires Consistent(c, r) && Last(r.journal).state == Swapped
    requires r.install == Some(InstallState(c.name, c.to))
    ensures var committed := Last(r.journal).(state := Committed);
            var p := Then(Note(r, committed), SettleCommitted(r, committed));
            && p.ok && Always(Inv(c), r, p.writes)
            && After(r, p) == Finished(r) && Consistent(c, Finished(r))
  {
    var committed := Last(r.journal).(state := Committed);
    NoteKeeps(r, Committed);
    var r1 := r.(journal := r.journal + [committed]);
    AlwaysOne(Inv(c), r, SetJournal(r1.journal));
    SettleKeeps(c, r1);
    AlwaysCut(Inv(c), r1, SettleCommitted(r1, committed), 0);
    assert SettleCommitted(r1, committed) == SettleCommitted(r, committed);
    AlwaysThen(Inv(c), r, Note(r, committed), SettleCommitted(r, committed));
    AfterThen(r, Note(r, committed), SettleCommitted(r, committed));
  }

  lemma CompleteSwappedKeeps(c: Brief, r: Root)
    requires Consistent(c, r) && Last(r.journal).state == Swapped
    ensures Complete(r, Last(r.journal)).ok
    ensures Always(Inv(c), r, Complete(r, Last(r.journal)).writes)
    ensures After(r, Complete(r, Last(r.journal))) == Finished(r) && Consistent(c, Finished(r))
  {
    var t := Last(r.journal);
    var i := InstallState(t.name, t.to);
    var committed := t.(state := Committed);
    var rest := Then(Note(r, committed), SettleCommitted(r, committed));
    var r1 := r.(install := Some(i));
    AlwaysOne(Inv(c), r, PutInstall(i));
    CommitKeeps(c, r1);
    assert Note(r1, committed) == Note(r, committed) && SettleCommitted(r1, committed) == SettleCommitted(r, committed);
    assert Finished(r1) == Finished(r);
    AlwaysThen(Inv(c), r, One(PutInstall(i)), rest);
    AfterThen(r, One(PutInstall(i)), rest);
  }

  lemma CompleteMigratedKeeps(c: Brief, r: Root)
    requires Consistent(c, r) && Last(r.journal).state == Migrated && r.current == Last(r.journal).to
    ensures Complete(r, Last(r.journal)).ok
    ensures Always(Inv(c), r, Complete(r, Last(r.journal)).writes)
    ensures var t := Last(r.journal);
            var r1 := r.(journal := r.journal + [t.(state := Swapped)]);
            After(r, Complete(r, t)) == Finished(r1) && Consistent(c, Finished(r1))
  {
    var t := Last(r.journal);
    var swapped := t.(state := Swapped);
    NoteKeeps(r, Swapped);
    var r1 := r.(journal := r.journal + [swapped]);
    AlwaysOne(Inv(c), r, SetJournal(r1.journal));
    CompleteSwappedKeeps(c, r1);
    assert CompleteSwapped(r1, t) == CompleteSwapped(r1, swapped);
    AlwaysThen(Inv(c), r, Note(r, swapped), CompleteSwapped(r1, t));
    AfterThen(r, Note(r, swapped), CompleteSwapped(r1, t));
  }

  // Recovery.

  /** Where recovery takes a crashed transaction: forwards if the pointer had
      moved, back if it had not, nowhere if it was resting. */
  function Verdict(r: Root): State
    requires r.journal != []
  {
    var t := Last(r.journal);
    match t.state
    case Begin => RolledBack
    case Staged => RolledBack
    case Migrated => if r.current == t.to then Committed else RolledBack
    case Swapped => Committed
    case rest => rest
  }

  /** A recovery that completed. */
  ghost predicate Recovered(r: Root, r': Root) {
    && r.journal != [] && r'.journal != []
    && var t, t' := Last(r.journal), Last(r'.journal);
    && SameTransaction(t, t') && t'.state == Verdict(r)
    && (t'.state == Committed ==>
          r'.current == t.to && Whole(r', t.to) && r'.install == Some(InstallState(t.name, t.to)))
    && (t'.state == RolledBack ==> r'.current == t.from && t.to !in r'.dirs)
    && (t'.state == Deferred ==> r' == r)
    && (t'.state != Deferred ==> r'.pending == map[] && r'.staged == {})
  }

  /** From every consistent state recovery goes through, it keeps it consistent
      at every point and settles it. */
  lemma RecoverKeeps(c: Brief, r: Root)
    requires Consistent(c, r)
    ensures Recover(r).ok
    ensures Always(Inv(c), r, Recover(r).writes)
    ensures Consistent(c, After(r, Recover(r))) && Recovered(r, After(r, Recover(r)))
  {
    var t := Last(r.journal);
    match t.state
    case Begin => UndoKeeps(c, r);
    case Staged => UndoKeeps(c, r);
    case Migrated =>
      if r.current == t.to {
        CompleteMigratedKeeps(c, r);
      } else {
        UndoKeeps(c, r);
      }
    case Swapped => CompleteSwappedKeeps(c, r);
    case Committed => SettleKeeps(c, r);
    case RolledBack => CleanKeeps(c, r);
    case Deferred =>
  }

  /** Recovering again changes nothing. */
  lemma RecoverIsIdempotent(c: Brief, r: Root)
    requires Consistent(c, r)
    ensures var r' := After(r, Recover(r)); After(r', Recover(r')) == r'
  {
    RecoverKeeps(c, r);
    var r' := After(r, Recover(r));
    RecoverKeeps(c, r');
    if Last(r'.journal).state == Committed {
      SettleKeeps(c, r');
    } else if Last(r'.journal).state == RolledBack {
      CleanKeeps(c, r');
    }
  }

  // Recovery where nothing was interrupted.

  ghost predicate Resting(r: Root) {
    r.journal == [] || (Accepted(r.journal) && Last(r.journal).state in {Committed, RolledBack, Deferred})
  }

  /** Only launchers waiting and litter differ. */
  predicate SameInstall(r: Root, r': Root) {
    && r'.journal == r.journal && r'.current == r.current && r'.dirs == r.dirs
    && r'.install == r.install && r'.probation == r.probation
  }

  ghost function SameAs(r: Root): Root -> bool {
    (r': Root) => SameInstall(r, r')
  }

  lemma {:induction false} HousekeepingOnly(r: Root, x: Root, ws: seq<Write>)
    requires SameInstall(r, x)
    requires forall i :: 0 <= i < |ws| ==> ws[i] in {DropNext, SweepPending, SweepStaging} || ws[i].Promote?
    ensures Always(SameAs(r), x, ws)
    decreases |ws|
  {
    if ws != [] {
      HousekeepingOnly(r, Do(x, ws[0]), ws[1..]);
    }
  }

  lemma RestingRecovery(r: Root)
    requires Resting(r)
    ensures Recover(r).ok && Always(SameAs(r), r, Recover(r).writes)
    ensures SameInstall(r, After(r, Recover(r)))
  {
    HousekeepingOnly(r, r, Recover(r).writes);
    AlwaysCut(SameAs(r), r, Recover(r), 0);
  }

  // Finishing a deferred update.

  lemma ResumeKeeps(c: Brief, r: Root)
    requires Consistent(c, r)
    ensures ResumeDeferred(r).ok
    ensures Always(Inv(c), r, ResumeDeferred(r).writes)
    ensures Last(r.journal).state == Deferred ==>
              var t, r' := Last(r.journal), After(r, ResumeDeferred(r));
              && r'.journal != [] && Last(r'.journal) == t.(state := Committed)
              && Consistent(c, r') && r'.pending == map[] && r'.staged == {}
    ensures Last(r.journal).state != Deferred ==> ResumeDeferred(r) == DONE
  {
    var t := Last(r.journal);
    if t.state == Deferred {
      var p1, p2 := Note(r, t.(state := Migrated)), One(Point(t.to));
      NoteKeeps(r, Migrated);
      var r1 := r.(journal := r.journal + [t.(state := Migrated)]);
      AlwaysOne(Inv(c), r, SetJournal(r1.journal));
      var r2 := r1.(current := t.to);
      AlwaysOne(Inv(c), r1, Point(t.to));
      NoteKeeps(r2, Swapped);
      var p3 := Note(r2, t.(state := Swapped));
      var r3 := r2.(journal := r2.journal + [t.(state := Swapped)]);
      AlwaysOne(Inv(c), r2, SetJournal(r3.journal));
      CompleteSwappedKeeps(c, r3);
      var p4 := Complete(r3, t.(state := Swapped));
      AlwaysThen(Inv(c), r2, p3, p4);
      AfterThen(r2, p3, p4);
      AlwaysThen(Inv(c), r1, p2, Then(p3, p4));
      AfterThen(r1, p2, Then(p3, p4));
      AlwaysThen(Inv(c), r, p1, Then(p2, Then(p3, p4)));
      AfterThen(r, p1, Then(p2, Then(p3, p4)));
    }
  }

  // Undoing in process, after the swap as well.

  /** An uninterrupted rollback undoes a transaction from any unfinished state.
      It does not write the install state, so what it leaves is consistent
      exactly when the transaction had not written it either. */
  lemma RollbackUndoes(c: Brief, r: Root)
    requires Consistent(c, r) && Last(r.journal).state in {Begin, Staged, Migrated, Swapped}
    ensures Rollback(r).ok && After(r, Rollback(r)) == Undone(r)
    ensures Consistent(c, Undone(r)) <==> r.install == c.install
  {
    var t := Last(r.journal);
    var p1, p2, p3 := RestorePointer(r, t), RemoveVersion(t.to), Note(r, t.(state := RolledBack));
    var r1 := r.(current := t.from);
    RestoreResult(r, t);
    var r2 := r1.(dirs := r.dirs - {t.to});
    RemoveResult(r1, t.to);
    NoteKeeps(r, RolledBack);
    NoteKeeps(r2, RolledBack);
    var r3 := r2.(journal := r.journal + [t.(state := RolledBack)]);
    CleanResult(r3);
    AfterThen(r2, p3, CleanOrphans());
    AfterThen(r1, p2, Then(p3, CleanOrphans()));
    AfterThen(r, p1, Then(p2, Then(p3, CleanOrphans())));
    assert Consistent(c, Undone(r)) <==> r.install == c.install;
  }

  lemma RestoreResult(r: Root, t: Record)
    requires RestorePointer(r, t).ok
    ensures After(r, RestorePointer(r, t)) == r.(current := t.from)
  {
    if t.from == "" {
      assert Exec(r, [Unpoint]) == Exec(Do(r, Unpoint), [Unpoint][1..]);
    } else if r.current != t.from {
      assert Exec(r, [Point(t.from)]) == Exec(Do(r, Point(t.from)), [Point(t.from)][1..]);
    }
  }

  lemma RemoveResult(r: Root, v: Version)
    ensures After(r, RemoveVersion(v)) == r.(dirs := r.dirs - {v})
  {
    var r1 := Do(r, Tear(v));
    assert [Tear(v), Drop(v)][1..] == [Drop(v)] && [Drop(v)][1..] == [];
    assert Exec(r1, [Drop(v)]) == Do(r1, Drop(v));
    assert Do(r1, Drop(v)).dirs == r.dirs - {v};
  }

  lemma CleanResult(r: Root)
    ensures After(r, CleanOrphans()) == r.(pending := map[], staged := {})
  {
    var ws := CleanOrphans().writes;
    assert ws[1..] == [SweepStaging] && [SweepStaging][1..] == [];
    assert Exec(Do(r, SweepPending), [SweepStaging]) == Do(Do(r, SweepPending), SweepStaging);
  }

  /** Cut anywhere, undoing a transaction that had not recorded its swap leaves
      a state recovery settles. */
  lemma RollbackKeepsUnlessSwapped(c: Brief, r: Root)
    requires Consistent(c, r) && Last(r.journal).state in {Begin, Staged, Migrated}
    ensures Always(Inv(c), r, Rollback(r).writes)
  {
    var t := Last(r.journal);
    if r.current == t.from {
      UndoKeeps(c, r);
    } else {
      var r1 := r.(current := t.from);
      var p1 := RestorePointer(r, t);
      AlwaysOne(Inv(c), r, p1.writes[0]);
      assert p1.writes == [p1.writes[0]];
      UndoKeeps(c, r1);
      var rest := Then(RemoveVersion(t.to), Then(Note(r, t.(state := RolledBack)), CleanOrphans()));
      SkipsRestored(c, r1, rest);
      AlwaysThen(Inv(c), r, p1, rest);
    }
  }

  /** With the pointer already back, restoring it again changes nothing. */
  lemma SkipsRestored(c: Brief, r: Root, rest: Plan)
    requires Consistent(c, r) && r.current == Last(r.journal).from
    requires Always(Inv(c), r, Undo(r, Last(r.journal)).writes)
    requires Undo(r, Last(r.journal)) == Then(RestorePointer(r, Last(r.journal)), rest)
    ensures Always(Inv(c), r, rest.writes)
  {
    if Last(r.journal).from == "" {
      var all := [Unpoint] + rest.writes;
      assert all[0] == Unpoint && all[1..] == rest.writes;
      assert Do(r, Unpoint) == r;
    } else {
      assert [] + rest.writes == rest.writes;
    }
  }

  /** Undoing a recorded swap, cut between the moved pointer and the rollback
      record: the one place recovery refuses, because the journal says the new
      version is installed and `current` disagrees. Cut before, recovery
      finishes the update; cut after, it is undone. */
  lemma RollbackOfSwappedCut(c: Brief, r: Root, k: nat)
    requires Consistent(c, r) && Last(r.journal).state == Swapped
    ensures Recover(Cut(r, Rollback(r), k)).ok <==> !(1 <= k <= 3)
    ensures 1 <= k <= 3 ==> Cut(r, Rollback(r), k).journal == r.journal
                            && Cut(r, Rollback(r), k).current == Last(r.journal).from
  {
    var t := Last(r.journal);
    NoteKeeps(r, RolledBack);
    var w := if t.from == "" then Unpoint else Point(t.from);
    var h := r.journal + [t.(state := RolledBack)];
    var ws := Rollback(r).writes;
    RollbackWrites(c, r, w, h);
    if k == 0 {
      RecoverKeeps(c, r);
      assert ws[..0] == [];
    } else if k <= 3 {
      CutSteps(r, w, t.to);
      assert ws[..1] == [w] && ws[..2] == [w, Tear(t.to)] && ws[..3] == [w, Tear(t.to), Drop(t.to)];
    } else {
      RecordedCut(r, w, t.to, h, ws, k);
    }
  }

  lemma RollbackWrites(c: Brief, r: Root, w: Write, h: seq<Record>)
    requires Consistent(c, r) && Last(r.journal).state == Swapped
    requires w == if c.from == "" then Unpoint else Point(c.from)
    requires h == r.journal + [Last(r.journal).(state := RolledBack)]
    ensures Rollback(r).writes == [w, Tear(c.to), Drop(c.to), SetJournal(h), SweepPending, SweepStaging]
  {
    var t := Last(r.journal);
    NoteKeeps(r, RolledBack);
    var p3 := Then(Note(r, t.(state := RolledBack)), CleanOrphans());
    assert p3.writes == [SetJournal(h)] + [SweepPending, SweepStaging];
    var p2 := Then(RemoveVersion(t.to), p3);
    assert p2.writes == [Tear(t.to), Drop(t.to)] + p3.writes;
    assert RestorePointer(r, t) == One(w);
    assert Undo(r, t).writes == [w] + p2.writes;
  }

  lemma RecordedCut(r: Root, w: Write, v: Version, h: seq<Record>, ws: seq<Write>, k: nat)
    requires ws == [w, Tear(v), Drop(v), SetJournal(h), SweepPending, SweepStaging] && k >= 4
    requires h != [] && Accepted(h) && Last(h).state == RolledBack
    ensures Recover(Exec(r, ws[..if k < |ws| then k else |ws|])).ok
  {
    var n := if k < |ws| then k else |ws|;
    assert ws[..n] == ws[..3] + [SetJournal(h)] + ws[4..n];
    CutRecorded(r, ws[..3], h, ws[4..n]);
  }

  lemma CutRecorded(r: Root, a: seq<Write>, h: seq<Record>, b: seq<Write>)
    requires forall i :: 0 <= i < |b| ==> b[i] == SweepPending || b[i] == SweepStaging
    ensures Exec(r, a + [SetJournal(h)] + b).journal == h
  {
    var w := SetJournal(h);
    ExecConcat(r, a + [w], b);
    ExecConcat(r, a, [w]);
    assert Exec(Exec(r, a), [w]) == Exec(Do(Exec(r, a), w), [w][1..]);
    SweepsKeepJournal(Exec(r, a + [w]), b);
  }

  lemma CutSteps(r: Root, w: Write, v: Version)
    requires w.Point? || w.Unpoint?
    ensures var to := if w.Point? then w.v else "";
            && Exec(r, [w]) == r.(current := to)
            && Exec(r, [w, Tear(v)]) == Do(r.(current := to), Tear(v))
            && Exec(r, [w, Tear(v), Drop(v)]) == r.(current := to, dirs := r.dirs - {v})
  {
    var r1 := Do(r, w);
    assert [w][1..] == [] && [w, Tear(v)][1..] == [Tear(v)] && [Tear(v)][1..] == [];
    assert [w, Tear(v), Drop(v)][1..] == [Tear(v), Drop(v)] && [Tear(v), Drop(v)][1..] == [Drop(v)];
    assert [Drop(v)][1..] == [];
    assert Exec(r1, [Tear(v)]) == Do(r1, Tear(v));
    assert Exec(r1, [Tear(v), Drop(v)]) == Exec(Do(r1, Tear(v)), [Drop(v)]) == Do(Do(r1, Tear(v)), Drop(v));
    assert Do(Do(r1, Tear(v)), Drop(v)).dirs == r.dirs - {v};
  }

  lemma {:induction false} SweepsKeepJournal(r: Root, ws: seq<Write>)
    requires forall i :: 0 <= i < |ws| ==> ws[i] == SweepPending || ws[i] == SweepStaging
    ensures Exec(r, ws).journal == r.journal
    decreases |ws|
  {
    if ws != [] {
      SweepsKeepJournal(Do(r, ws[0]), ws[1..]);
    }
  }
}
