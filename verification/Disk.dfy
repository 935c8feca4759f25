/** The transaction as it runs: each step writes to the install root as it goes
    and stops when a write fails. Wherever that is, what is on disk is a cut of
    the operation's plan, so what is proved about cut plans holds here. */
module Disk {
  import opened Bytes
  import opened Journal
  import opened Install
  import Txn
  import Trial
  import Apply
  import Launch
  import Atomicity
  import Machine
  import Retries

  /** A root, and how many more writes reach it before one fails. */
  datatype Snap = Snap(root: Root, fuel: nat)

  /** From a to b by as much of the plan as the fuel allowed; ok if that was all
      of it and the plan succeeds. */
  ghost predicate Did(a: Snap, p: Plan, b: Snap, ok: bool) {
    var n := if a.fuel < |p.writes| then a.fuel else |p.writes|;
    && b.root == Exec(a.root, p.writes[..n]) && b.fuel == a.fuel - n
    && (ok <==> p.ok && |p.writes| <= a.fuel)
  }

  /** What was done is a cut of the plan, and all of it if it succeeded. */
  lemma DidCut(a: Snap, p: Plan, b: Snap, ok: bool)
    requires Did(a, p, b, ok)
    ensures b.root == Cut(a.root, p, a.fuel)
    ensures ok ==> b.root == After(a.root, p) && p.ok
  {
    assert p.writes[..|p.writes|] == p.writes;
  }

  lemma DidThen(a: Snap, p: Plan, b: Snap, okP: bool, q: Plan, c: Snap, okQ: bool)
    requires Did(a, p, b, okP) && (if okP then Did(b, q, c, okQ) else c == b && !okQ)
    ensures Did(a, Then(p, q), c, okQ)
  {
    var ws := p.writes + q.writes;
    if okP {
      var m := if b.fuel < |q.writes| then b.fuel else |q.writes|;
      assert p.writes[..|p.writes|] == p.writes;
      ExecConcat(a.root, p.writes, q.writes[..m]);
      assert ws[..|p.writes| + m] == p.writes + q.writes[..m];
    } else if p.ok {
      assert ws[..a.fuel] == p.writes[..a.fuel];
    }
  }

  lemma DidNothing(a: Snap, p: Plan)
    requires p.writes == []
    ensures Did(a, p, a, p.ok)
  {
  }

  /** Where a plan continues from when its first part succeeded. */
  lemma DidFirst(a: Snap, p: Plan, b: Snap)
    requires Did(a, p, b, true)
    ensures b.root == After(a.root, p)
  {
    DidCut(a, p, b, true);
  }

  class InstallRoot {
    var root: Root
    var fuel: nat

    ghost function Now(): Snap
      reads this
    {
      Snap(root, fuel)
    }

    constructor (root: Root, fuel: nat)
      ensures this.root == root && this.fuel == fuel
    {
      this.root, this.fuel := root, fuel;
    }

    /** One durable write. */
    method Write(w: Write) returns (ok: bool)
      modifies this
      ensures Did(old(Now()), One(w), Now(), ok)
      ensures ok ==> root == Do(old(root), w)
    {
      ghost var a := Now();
      if fuel == 0 {
        assert [w][..0] == [];
        return false;
      }
      root := Do(root, w);
      fuel := fuel - 1;
      assert [w][..1] == [w] && [w][1..] == [];
      return true;
    }

    method WriteTwo(v: Write, w: Write) returns (ok: bool)
      modifies this
      ensures Did(old(Now()), Plan([v, w], true), Now(), ok)
    {
      ghost var a := Now();
      ok := Write(v);
      ghost var b, okB := Now(), ok;
      if ok {
        ok := Write(w);
      }
      DidThen(a, One(v), b, okB, One(w), Now(), ok);
      assert [v] + [w] == [v, w];
    }

    method Append(t: Record) returns (ok: bool)
      modifies this
      ensures Did(old(Now()), Txn.Note(old(root), t), Now(), ok)
    {
      var h := Journal.Append(root.journal, t);
      if h.None? {
        DidNothing(Now(), REFUSED);
        return false;
      }
      ok := Write(SetJournal(h.value));
    }

    method CleanOrphans() returns (ok: bool)
      modifies this
      ensures Did(old(Now()), Txn.CleanOrphans(), Now(), ok)
    {
      ok := WriteTwo(SweepPending, SweepStaging);
    }

    method PromoteLauncher(v: Version) returns (ok: bool)
      modifies this
      ensures Did(old(Now()), Txn.PromoteLauncher(old(root), v), Now(), ok)
    {
      if v !in root.pending {
        DidNothing(Now(), DONE);
        return true;
      }
      if root.next.Some? && root.next.value.name != root.pending[v].name {
        ok := WriteTwo(DropNext, Promote(v));
      } else {
        ok := Write(Promote(v));
      }
    }

    method SettleCommitted(last: Record) returns (ok: bool)
      modifies this
      ensures Did(old(Now()), Txn.SettleCommitted(old(root), last), Now(), ok)
    {
      if !(last.to in root.pending && root.current == last.to) {
        ok := CleanOrphans();
        return;
      }
      ghost var a := Now();
      ok := PromoteLauncher(last.to);
      ghost var b, okB := Now(), ok;
      if ok {
        ok := CleanOrphans();
      }
      DidThen(a, Txn.PromoteLauncher(a.root, last.to), b, okB, Txn.CleanOrphans(), Now(), ok);
    }

    method RestorePointer(last: Record) returns (ok: bool)
      modifies this
      ensures Did(old(Now()), Txn.RestorePointer(old(root), last), Now(), ok)
      ensures root.journal == old(root).journal
    {
      if last.from == "" {
        ok := Write(Unpoint);
        return;
      }
      if root.current == last.from {
        DidNothing(Now(), DONE);
        return true;
      }
      if last.from !in root.dirs {
        DidNothing(Now(), REFUSED);
        return false;
      }
      ok := Write(Point(last.from));
    }

    /** Pointer first, then the directory nothing points at any more, then the
        record, then the litter. */
    method Undo(last: Record) returns (ok: bool)
      modifies this
      ensures Did(old(Now()), Txn.Undo(old(root), last), Now(), ok)
    {
      ghost var a := Now();
      ghost var p1 := Txn.RestorePointer(a.root, last);
      ghost var p2 := if last.to != last.from then Txn.RemoveVersion(last.to) else DONE;
      ghost var p3 := Txn.Note(a.root, last.(state := RolledBack));
      ok := RestorePointer(last);
      ghost var b, okB := Now(), ok;
      if ok {
        ok := UndoTree(last);
      }
      DidThen(a, p1, b, okB, Then(p2, Then(p3, Txn.CleanOrphans())), Now(), ok);
    }

    method UndoTree(last: Record) returns (ok: bool)
      modifies this
      ensures Did(old(Now()),
                  Then(if last.to != last.from then Txn.RemoveVersion(last.to) else DONE,
                       Then(Txn.Note(old(root), last.(state := RolledBack)), Txn.CleanOrphans())), Now(), ok)
    {
      ghost var a := Now();
      ghost var p2 := if last.to != last.from then Txn.RemoveVersion(last.to) else DONE;
      ghost var p3 := Txn.Note(a.root, last.(state := RolledBack));
      if last.to != last.from {
        ok := WriteTwo(Tear(last.to), Drop(last.to));
      } else {
        DidNothing(Now(), DONE);
        ok := true;
      }
      ghost var b, okB := Now(), ok;
      if ok {
        DidFirst(a, p2, b);
        RemovalKeepsJournal(a.root, last.to);
        ok := Append(last.(state := RolledBack));
        ghost var c, okC := Now(), ok;
        if ok {
          ok := CleanOrphans();
        }
        DidThen(b, p3, c, okC, Txn.CleanOrphans(), Now(), ok);
      }
      DidThen(a, p2, b, okB, Then(p3, Txn.CleanOrphans()), Now(), ok);
    }

    method CompleteSwapped(last: Record) returns (ok: bool)
      modifies this
      ensures Did(old(Now()), Txn.CompleteSwapped(old(root), last), Now(), ok)
    {
      ghost var a := Now();
      var committed := last.(state := Committed);
      ghost var p1 := One(PutInstall(InstallState(last.name, last.to)));
      ghost var p2, p3 := Txn.Note(a.root, committed), Txn.SettleCommitted(a.root, committed);
      ok := Write(PutInstall(InstallState(last.name, last.to)));
      ghost var b, okB := Now(), ok;
      if ok {
        ok := Append(committed);
        ghost var c, okC := Now(), ok;
        if ok {
          DidFirst(b, p2, c);
          NoteOnlyJournal(b.root, committed);
          ok := SettleCommitted(committed);
        }
        DidThen(b, p2, c, okC, p3, Now(), ok);
      }
      DidThen(a, p1, b, okB, Then(p2, p3), Now(), ok);
    }

    method Complete(last: Record) returns (ok: bool)
      modifies this
      ensures Did(old(Now()), Txn.Complete(old(root), last), Now(), ok)
    {
      if root.current != last.to {
        DidNothing(Now(), REFUSED);
        return false;
      }
      if last.state != Migrated {
        ok := CompleteSwapped(last);
        return;
      }
      ghost var a := Now();
      ghost var p := Txn.Note(a.root, last.(state := Swapped));
      ok := Append(last.(state := Swapped));
      ghost var b, okB := Now(), ok;
      if ok {
        DidFirst(a, p, b);
        ok := CompleteSwapped(last);
      }
      DidThen(a, p, b, okB, Txn.CompleteSwapped(After(a.root, p), last), Now(), ok);
    }

    /** What every start and every update does first. */
    method RecoverResult() returns (ok: bool)
      modifies this
      ensures Did(old(Now()), Txn.Recover(old(root)), Now(), ok)
    {
      if root.journal == [] {
        ok := CleanOrphans();
        return;
      }
      var believed := Parse(root.journal);
      if !believed {
        DidNothing(Now(), REFUSED);
        return false;
      }
      var last := Last(root.journal);
      match last.state
      case Committed => ok := SettleCommitted(last);
      case RolledBack => ok := CleanOrphans();
      case Uninstalling => DidNothing(Now(), REFUSED); ok := false;
      case Deferred => DidNothing(Now(), DONE); ok := true;
      case Swapped => ok := Complete(last);
      case Migrated =>
        if root.current == last.to {
          ok := Complete(last);
        } else {
          ok := Undo(last);
        }
      case Begin => ok := Undo(last);
      case Staged => ok := Undo(last);
    }

    /** What a failed update does before it returns. */
    method Rollback() returns (ok: bool)
      modifies this
      ensures Did(old(Now()), Txn.Rollback(old(root)), Now(), ok)
    {
      if root.journal == [] {
        ok := CleanOrphans();
        return;
      }
      var believed := Parse(root.journal);
      if !believed {
        DidNothing(Now(), REFUSED);
        return false;
      }
      var last := Last(root.journal);
      match last.state
      case Committed => ok := SettleCommitted(last);
      case RolledBack => ok := CleanOrphans();
      case Uninstalling => DidNothing(Now(), REFUSED); ok := false;
      case _ => ok := Undo(last);
    }

    method Swap(v: Version) returns (ok: bool)
      modifies this
      ensures Did(old(Now()), Apply.Swap(old(root), v), Now(), ok)
    {
      if v !in root.dirs {
        DidNothing(Now(), REFUSED);
        return false;
      }
      ok := Write(Point(v));
    }

    /** Finishes a deferred update, on a start with nothing running. */
    method ResumeDeferred() returns (ok: bool)
      modifies this
      ensures Did(old(Now()), Txn.ResumeDeferred(old(root)), Now(), ok)
    {
      if root.journal == [] {
        DidNothing(Now(), DONE);
        return true;
      }
      var believed := Parse(root.journal);
      if !believed {
        DidNothing(Now(), REFUSED);
        return false;
      }
      var last := Last(root.journal);
      if last.state != Deferred {
        DidNothing(Now(), DONE);
        return true;
      }
      ghost var a := Now();
      ghost var p1 := Txn.Note(a.root, last.(state := Migrated));
      ghost var p2 := Apply.Swap(a.root, last.to);
      ghost var r2 := After(After(a.root, p1), p2);
      ghost var p3 := Txn.Note(r2, last.(state := Swapped));
      ghost var p4 := Txn.Complete(After(r2, p3), last.(state := Swapped));
      ok := Append(last.(state := Migrated));
      ghost var b, okB := Now(), ok;
      if ok {
        DidFirst(a, p1, b);
        NoteOnlyJournal(a.root, last.(state := Migrated));
        ok := Swap(last.to);
        ghost var c, okC := Now(), ok;
        if ok {
          DidFirst(b, p2, c);
          ok := Append(last.(state := Swapped));
          ghost var d, okD := Now(), ok;
          if ok {
            DidFirst(c, p3, d);
            ok := Complete(last.(state := Swapped));
          }
          DidThen(c, p3, d, okD, p4, Now(), ok);
        }
        DidThen(b, p2, c, okC, Then(p3, p4), Now(), ok);
      }
      DidThen(a, p1, b, okB, Then(p2, Then(p3, p4)), Now(), ok);
    }

    // An update.

    /** Removes old versions one by one; one that will not go is left. */
    method Collect(sweep: Apply.Sweep) returns (ok: bool)
      modifies this
      ensures Did(old(Now()), Apply.Collect(old(root), sweep), Now(), ok)
    {
      ghost var a := Now();
      if root.current == "" {
        DidNothing(Now(), DONE);
        return true;
      }
      var keep := {root.current} + Apply.Pins(root) + sweep.window;
      ok := true;
      for i := 0 to |sweep.listing|
        invariant Did(a, Plan(Apply.Removals(sweep.listing[..i], keep, sweep.stuck), true), Now(), ok)
      {
        ghost var b, okB := Now(), ok;
        if ok {
          ok := RemoveOne(sweep.listing[i], keep, sweep.stuck);
        }
        RemovalsNext(sweep.listing, keep, sweep.stuck, i);
        DidThen(a, Plan(Apply.Removals(sweep.listing[..i], keep, sweep.stuck), true), b, okB,
                Plan(Apply.Removal(sweep.listing[i], keep, sweep.stuck), true), Now(), ok);
      }
      assert sweep.listing[..|sweep.listing|] == sweep.listing;
    }

    method RemoveOne(v: Version, keep: set<Version>, stuck: set<Version>) returns (ok: bool)
      modifies this
      ensures Did(old(Now()), Plan(Apply.Removal(v, keep, stuck), true), Now(), ok)
    {
      if v in keep {
        DidNothing(Now(), DONE);
        return true;
      }
      if v in stuck {
        ok := Write(Tear(v));
      } else {
        ok := WriteTwo(Tear(v), Drop(v));
      }
    }

    /** The launcher of a committed update, then the old versions. A promotion
        that fails part-way does not stop the collection. */
    method Tidy(a: Apply.Request) returns (ok: bool)
      modifies this
      ensures Did(old(Now()), Apply.Tidy(old(root), a), Now(), ok)
    {
      ghost var s := Now();
      ghost var p := Apply.Promotion(s.root, a);
      ok := Promotion(a);
      ghost var b, okB := Now(), ok;
      if ok {
        DidFirst(s, p, b);
        ok := Collect(a.sweep);
      }
      DidThen(s, p, b, okB, Apply.Collect(After(s.root, p), a.sweep), Now(), ok);
    }

    method Promotion(a: Apply.Request) returns (ok: bool)
      modifies this
      ensures Did(old(Now()), Apply.Promotion(old(root), a), Now(), ok)
    {
      ghost var s := Now();
      ghost var promote := Txn.PromoteLauncher(s.root, a.to);
      if a.failed.None? {
        ok := PromoteLauncher(a.to);
        ghost var b, okB := Now(), ok;
        if ok {
          ok := CleanOrphans();
        }
        DidThen(s, promote, b, okB, Txn.CleanOrphans(), Now(), ok);
        return;
      }
      if a.failed.value == 0 || a.to !in root.pending {
        DidNothing(Now(), Plan(promote.writes[..0], true));
        assert promote.writes[..0] == [];
        return true;
      }
      if a.failed.value == 1 && root.next.Some? && root.next.value.name != root.pending[a.to].name {
        ok := Write(DropNext);
        assert promote.writes[..1] == [DropNext];
      } else {
        ok := PromoteLauncher(a.to);
        assert promote.writes[..|promote.writes|] == promote.writes;
      }
    }

    method Commit(a: Apply.Request, t: Record) returns (ok: bool)
      modifies this
      ensures Did(old(Now()), Apply.Commit(old(root), a, t), Now(), ok)
    {
      ghost var s := Now();
      ghost var p1 := One(PutInstall(InstallState(a.name, a.to)));
      ghost var r1 := After(s.root, p1);
      ghost var p2 := Txn.Note(r1, t.(state := Committed));
      ghost var p3 := Apply.Tidy(After(r1, p2), a);
      ok := Write(PutInstall(InstallState(a.name, a.to)));
      ghost var b, okB := Now(), ok;
      if ok {
        DidFirst(s, p1, b);
        ok := Append(t.(state := Committed));
        ghost var c, okC := Now(), ok;
        if ok {
          DidFirst(b, p2, c);
          ok := Tidy(a);
        }
        DidThen(b, p2, c, okC, p3, Now(), ok);
      }
      DidThen(s, p1, b, okB, Then(p2, p3), Now(), ok);
    }

    method Switch(a: Apply.Request, t: Record) returns (ok: bool)
      modifies this
      ensures Did(old(Now()), Apply.Switch(old(root), a, t), Now(), ok)
    {
      ghost var s := Now();
      ghost var p1 := Apply.Swap(s.root, a.to);
      ghost var r1 := After(s.root, p1);
      ghost var p2 := Txn.Note(r1, t.(state := Swapped));
      ghost var p3 := Apply.Commit(After(r1, p2), a, t);
      ok := Swap(a.to);
      ghost var b, okB := Now(), ok;
      if ok {
        DidFirst(s, p1, b);
        ok := Append(t.(state := Swapped));
        ghost var c, okC := Now(), ok;
        if ok {
          DidFirst(b, p2, c);
          ok := Commit(a, t);
        }
        DidThen(b, p2, c, okC, p3, Now(), ok);
      }
      DidThen(s, p1, b, okB, Then(p2, p3), Now(), ok);
    }

    method Quiesce(a: Apply.Request, t: Record) returns (ok: bool)
      modifies this
      ensures Did(old(Now()), Apply.Quiesce(old(root), a, t), Now(), ok)
    {
      ghost var s := Now();
      var next := t.(state := if a.defers then Deferred else Migrated);
      ghost var p := Txn.Note(s.root, next);
      ok := Append(next);
      ghost var b, okB := Now(), ok;
      if ok {
        DidFirst(s, p, b);
        if a.defers {
          DidNothing(b, REFUSED);
          ok := false;
        } else {
          ok := Switch(a, t);
        }
      }
      DidThen(s, p, b, okB, if a.defers then REFUSED else Apply.Switch(After(s.root, p), a, t), Now(), ok);
    }

    /** Clears what an abandoned attempt left. */
    method Clear(v: Version) returns (ok: bool)
      modifies this
      ensures Did(old(Now()), Plan([ClearStage(v), MakeStage(v), DropPending(v)], true), Now(), ok)
      ensures root.dirs == old(root).dirs
    {
      ghost var s := Now();
      ok := Write(ClearStage(v));
      ghost var b, okB := Now(), ok;
      ghost var two := Plan([MakeStage(v), DropPending(v)], true);
      if ok {
        ok := Write(MakeStage(v));
        ghost var c, okC := Now(), ok;
        if ok {
          ok := Write(DropPending(v));
        }
        DidThen(b, One(MakeStage(v)), c, okC, One(DropPending(v)), Now(), ok);
        assert [MakeStage(v)] + [DropPending(v)] == two.writes;
      }
      DidThen(s, One(ClearStage(v)), b, okB, two, Now(), ok);
      assert [ClearStage(v)] + two.writes == [ClearStage(v), MakeStage(v), DropPending(v)];
    }

    /** Builds the tree aside, with the launcher the release ships. */
    method Build(a: Apply.Request) returns (ok: bool)
      modifies this
      ensures Did(old(Now()),
                  Plan([ClearStage(a.to), MakeStage(a.to), DropPending(a.to)]
                       + (if a.launcher.Some? then [PutPending(a.to, a.launcher.value)] else []), true), Now(), ok)
      ensures root.dirs == old(root).dirs
    {
      ghost var s := Now();
      ghost var p := Plan([ClearStage(a.to), MakeStage(a.to), DropPending(a.to)], true);
      ok := Clear(a.to);
      ghost var b, okB := Now(), ok;
      if ok && a.launcher.Some? {
        ok := Write(PutPending(a.to, a.launcher.value));
      } else if ok {
        DidNothing(b, DONE);
      }
      DidThen(s, p, b, okB, if a.launcher.Some? then One(PutPending(a.to, a.launcher.value)) else DONE, Now(), ok);
    }

    method Stage(a: Apply.Request) returns (ok: bool)
      modifies this
      ensures Did(old(Now()), Apply.Stage(old(root), a), Now(), ok)
    {
      ghost var s := Now();
      ghost var p := Plan([ClearStage(a.to), MakeStage(a.to), DropPending(a.to)]
                          + (if a.launcher.Some? then [PutPending(a.to, a.launcher.value)] else []), true);
      ghost var q := if a.to in s.root.dirs then REFUSED
                     else if a.flushed then One(Place(a.to))
                     else Plan([Place(a.to), Tear(a.to), Drop(a.to)], false);
      ok := Build(a);
      ghost var b, okB := Now(), ok;
      if ok {
        if a.to in root.dirs {
          DidNothing(b, REFUSED);
          ok := false;
        } else {
          ok := Write(Place(a.to));
          if !a.flushed {
            ghost var c, okC := Now(), ok;
            if ok {
              ok := WriteTwo(Tear(a.to), Drop(a.to));
            }
            DidThen(b, One(Place(a.to)), c, okC, Plan([Tear(a.to), Drop(a.to)], true), Now(), ok);
            assert [Place(a.to)] + [Tear(a.to), Drop(a.to)] == q.writes;
            ok := false;
          }
        }
      }
      DidThen(s, p, b, okB, q, Now(), ok);
    }

    method Fill(a: Apply.Request, t: Record) returns (ok: bool)
      modifies this
      ensures Did(old(Now()), Apply.Fill(old(root), a, t), Now(), ok)
    {
      ghost var s := Now();
      ghost var p1 := Apply.Stage(s.root, a);
      ghost var r1 := After(s.root, p1);
      ghost var p2 := Txn.Note(r1, t.(state := Staged));
      ghost var p3 := Apply.Quiesce(After(r1, p2), a, t);
      ok := Stage(a);
      ghost var b, okB := Now(), ok;
      if ok {
        DidFirst(s, p1, b);
        ok := Append(t.(state := Staged));
        ghost var c, okC := Now(), ok;
        if ok {
          DidFirst(b, p2, c);
          ok := Quiesce(a, t);
        }
        DidThen(b, p2, c, okC, p3, Now(), ok);
      }
      DidThen(s, p1, b, okB, Then(p2, p3), Now(), ok);
    }

    method Transact(a: Apply.Request) returns (ok: bool)
      modifies this
      ensures Did(old(Now()), Apply.Transact(old(root), a), Now(), ok)
    {
      ghost var s := Now();
      var t := Record(Begin, a.name, root.current, a.to);
      ghost var p := Txn.Note(s.root, t);
      ok := Append(t);
      ghost var b, okB := Now(), ok;
      if ok {
        DidFirst(s, p, b);
        ok := Fill(a, t);
      }
      DidThen(s, p, b, okB, Apply.Fill(After(s.root, p), a, t), Now(), ok);
    }

    /** Leaves the record of a version on probation before its transaction. */
    method Arm(to: Version, allow: Trial.Allowance) returns (ok: bool)
      modifies this
      ensures Did(old(Now()), Trial.Arm(old(root), to, allow), Now(), ok)
    {
      if root.current == "" || allow.attempts == 0 {
        DidNothing(Now(), DONE);
        return true;
      }
      var previous, blocked := root.current, None;
      if root.probation.Some? {
        var p := root.probation.value;
        if p.status == Reverting {
          DidNothing(Now(), REFUSED);
          return false;
        }
        blocked := p.blocked;
        if Trial.Unconfirmed(p) && p.version == root.current && p.previous != to && p.previous in root.dirs {
          previous := p.previous;
        }
      }
      ok := Write(PutProbation(Probation(to, previous, Active, 0, allow.attempts, 0, allow.restarts, false, "", blocked)));
    }

    /** One whole update: settle what was interrupted, check, record, stage,
        migrate, swap, commit. */
    method Update(a: Apply.Request) returns (ok: bool)
      modifies this
      ensures Did(old(Now()), Apply.Update(old(root), a), Now(), ok)
    {
      ghost var s := Now();
      ghost var p := Txn.Recover(s.root);
      ghost var r1 := After(s.root, p);
      ok := RecoverResult();
      ghost var b, okB := Now(), ok;
      if ok {
        DidFirst(s, p, b);
        if Apply.Refuses(root, a) {
          DidNothing(b, REFUSED);
          ok := false;
        } else {
          ok := Proceed(a);
        }
      }
      DidThen(s, p, b, okB, Apply.Attempt(r1, a), Now(), ok);
    }

    method Proceed(a: Apply.Request) returns (ok: bool)
      modifies this
      ensures Did(old(Now()), Apply.Proceed(old(root), a), Now(), ok)
    {
      ghost var s := Now();
      ghost var p := Trial.Arm(s.root, a.to, a.allow);
      ok := Arm(a.to, a.allow);
      ghost var b, okB := Now(), ok;
      if ok {
        DidFirst(s, p, b);
        ok := Transact(a);
      }
      DidThen(s, p, b, okB, Apply.Transact(After(s.root, p), a), Now(), ok);
    }

    // A start.

    /** Recovery, the deferred update if one waits and the lock is free, the
        collection behind it, and the version on probation. */
    method Start(w: Launch.World) returns (ok: bool)
      modifies this
      ensures Did(old(Now()), Launch.Start(old(root), w), Now(), ok)
    {
      ghost var s := Now();
      ghost var p := Txn.Recover(s.root);
      ok := RecoverResult();
      ghost var b, okB := Now(), ok;
      if ok {
        DidFirst(s, p, b);
        ok := Continue(w);
      }
      DidThen(s, p, b, okB, Launch.Continue(After(s.root, p), w), Now(), ok);
    }

    method Continue(w: Launch.World) returns (ok: bool)
      modifies this
      ensures Did(old(Now()), Launch.Continue(old(root), w), Now(), ok)
    {
      if !(root.journal != [] && Last(root.journal).state == Deferred && w.resumes) {
        ok := Settle(!w.reverts);
        return;
      }
      ghost var s := Now();
      ghost var p1 := Txn.ResumeDeferred(s.root);
      ghost var r1 := After(s.root, p1);
      ghost var p2 := Apply.Collect(r1, w.sweep);
      ghost var p3 := Trial.Settle(After(r1, p2), false);
      ok := ResumeDeferred();
      ghost var b, okB := Now(), ok;
      if ok {
        DidFirst(s, p1, b);
        ok := Collect(w.sweep);
        ghost var c, okC := Now(), ok;
        if ok {
          DidFirst(b, p2, c);
          ok := Settle(false);
        }
        DidThen(b, p2, c, okC, p3, Now(), ok);
      }
      DidThen(s, p1, b, okB, Then(p2, p3), Now(), ok);
    }

    // A version on probation.

    /** Counts this start, or goes back to the version before. */
    method Settle(running: bool) returns (ok: bool)
      modifies this
      ensures Did(old(Now()), Trial.Settle(old(root), running), Now(), ok)
    {
      match Trial.Decide(root)
      case Idle => DidNothing(Now(), DONE); ok := true;
      case Counted => ok := Write(PutProbation(root.probation.value.(attempts := root.probation.value.attempts + 1)));
      case Restarted => ok := Write(PutProbation(root.probation.value.(restartPending := false)));
      case Reverts(reason) =>
        if running {
          DidNothing(Now(), DONE);
          ok := true;
        } else {
          ok := Revert(root.probation.value, reason);
        }
    }

    /** The record first, so that any start finishes what this one began. */
    method Revert(p: Probation, reason: string) returns (ok: bool)
      modifies this
      ensures Did(old(Now()), Trial.Revert(old(root), p, reason), Now(), ok)
    {
      if p.previous !in root.dirs {
        if p.status == Reverting {
          DidNothing(Now(), REFUSED);
          return false;
        }
        ok := Write(PutProbation(Trial.Stays(p, reason)));
        return;
      }
      ghost var s := Now();
      var q := p.(status := Reverting, reason := reason);
      ghost var first := if p.status == Reverting then DONE else One(PutProbation(q));
      if p.status == Reverting {
        DidNothing(s, DONE);
        ok := true;
      } else {
        ok := Write(PutProbation(q));
      }
      ghost var b, okB := Now(), ok;
      if ok {
        ok := GoBack(p, reason);
      }
      DidThen(s, first, b, okB,
              Then(One(Point(p.previous)),
                   Then(Trial.RestoreInstall(s.root, p.previous),
                        Then(One(PutProbation(Trial.Gone(p, reason))), Txn.RemoveVersion(p.version)))), Now(), ok);
    }

    method GoBack(p: Probation, reason: string) returns (ok: bool)
      modifies this
      ensures Did(old(Now()),
                  Then(One(Point(p.previous)),
                       Then(Trial.RestoreInstall(old(root), p.previous),
                            Then(One(PutProbation(Trial.Gone(p, reason))), Txn.RemoveVersion(p.version)))), Now(), ok)
    {
      ghost var s := Now();
      var gone := PutProbation(Trial.Gone(p, reason));
      ghost var p2 := Trial.RestoreInstall(s.root, p.previous);
      ok := Write(Point(p.previous));
      ghost var b, okB := Now(), ok;
      if ok {
        ok := RestoreInstall(p.previous);
        ghost var c, okC := Now(), ok;
        if ok {
          ok := Write(gone);
          ghost var d, okD := Now(), ok;
          if ok {
            ok := WriteTwo(Tear(p.version), Drop(p.version));
          }
          DidThen(c, One(gone), d, okD, Txn.RemoveVersion(p.version), Now(), ok);
        }
        DidThen(b, p2, c, okC, Then(One(gone), Txn.RemoveVersion(p.version)), Now(), ok);
      }
      DidThen(s, One(Point(p.previous)), b, okB, Then(p2, Then(One(gone), Txn.RemoveVersion(p.version))), Now(), ok);
    }

    method RestoreInstall(v: Version) returns (ok: bool)
      modifies this
      ensures Did(old(Now()), Trial.RestoreInstall(old(root), v), Now(), ok)
    {
      if root.install.None? {
        DidNothing(Now(), REFUSED);
        return false;
      }
      if root.install.value.version == v {
        DidNothing(Now(), DONE);
        return true;
      }
      ok := Write(PutInstall(InstallState(root.install.value.name, v)));
    }
  }

  lemma RemovalKeepsJournal(r: Root, v: Version)
    ensures After(r, Txn.RemoveVersion(v)).journal == r.journal
  {
    assert [Tear(v), Drop(v)][1..] == [Drop(v)] && [Drop(v)][1..] == [];
    assert Exec(Do(r, Tear(v)), [Drop(v)]) == Do(Do(r, Tear(v)), Drop(v));
  }

  lemma NoteOnlyJournal(r: Root, t: Record)
    ensures var r' := After(r, Txn.Note(r, t)); r' == r.(journal := r'.journal)
  {
    var h := Journal.Append(r.journal, t);
    if h.Some? {
      var w := SetJournal(h.value);
      assert Exec(r, [w]) == Exec(Do(r, w), [w][1..]) == Do(r, w);
    }
  }

  lemma {:induction false} RemovalsNext(listing: seq<Version>, keep: set<Version>, stuck: set<Version>, i: nat)
    requires i < |listing|
    ensures Apply.Removals(listing[..i + 1], keep, stuck)
            == Apply.Removals(listing[..i], keep, stuck) + Apply.Removal(listing[i], keep, stuck)
    decreases i
  {
    var front := listing[..i + 1];
    var last := Apply.Removal(listing[i], keep, stuck);
    if i == 0 {
      assert front[1..] == [] && listing[..0] == [];
      assert Apply.Removals([], keep, stuck) == [];
      assert last + [] == [] + last;
    } else {
      var first, mid := Apply.Removal(listing[0], keep, stuck), Apply.Removals(listing[1..][..i - 1], keep, stuck);
      RemovalsNext(listing[1..], keep, stuck, i - 1);
      assert front[1..] == listing[1..][..i] && listing[..i][1..] == listing[1..][..i - 1];
      assert first + (mid + last) == (first + mid) + last;
    }
  }

  // A crash, and the starts after it.

  lemma {:induction false} RecoveriesNext(r: Root, cuts: seq<nat>, i: nat)
    requires i < |cuts|
    ensures var x := Atomicity.Recoveries(r, cuts[..i]);
            Atomicity.Recoveries(r, cuts[..i + 1]) == Cut(x, Txn.Recover(x), cuts[i])
    decreases i
  {
    var front := cuts[..i + 1];
    assert front[0] == cuts[0];
    var r1 := Cut(r, Txn.Recover(r), cuts[0]);
    if i == 0 {
      assert front[1..] == [] && cuts[..0] == [];
    } else {
      assert front[1..] == cuts[1..][..i] && cuts[..i][1..] == cuts[1..][..i - 1];
      RecoveriesNext(r1, cuts[1..], i - 1);
    }
  }

  lemma UndoIsShort(r: Root, t: Record)
    ensures |Txn.Undo(r, t).writes| <= 6
  {
    var p3 := Then(Txn.Note(r, t.(state := RolledBack)), Txn.CleanOrphans());
    assert |p3.writes| <= 3;
  }

  lemma CompleteIsShort(r: Root, t: Record)
    ensures |Txn.Complete(r, t).writes| <= 7 && |Txn.CompleteSwapped(r, t).writes| <= 6
  {
    SwappedIsShort(r, t);
    SwappedIsShort(After(r, Txn.Note(r, t.(state := Swapped))), t);
  }

  lemma SwappedIsShort(r: Root, t: Record)
    ensures |Txn.CompleteSwapped(r, t).writes| <= 6
  {
    var committed := t.(state := Committed);
    assert |Txn.SettleCommitted(r, committed).writes| <= 4;
    assert |Then(Txn.Note(r, committed), Txn.SettleCommitted(r, committed)).writes| <= 5;
  }

  /** No recovery writes more than seven times. */
  lemma RecoverIsShort(r: Root)
    ensures |Txn.Recover(r).writes| <= 7
  {
    if r.journal != [] && Accepted(r.journal) {
      UndoIsShort(r, Last(r.journal));
      CompleteIsShort(r, Last(r.journal));
      assert |Txn.SettleCommitted(r, Last(r.journal)).writes| <= 4;
    }
  }

  /** Starts whose recovery each stops after some writes, and one that is left
      alone. */
  method Restart(disk: InstallRoot, cuts: seq<nat>)
    requires Txn.Recover(Atomicity.Recoveries(disk.root, cuts)).ok
    modifies disk
    ensures var r := Atomicity.Recoveries(old(disk.root), cuts); disk.root == After(r, Txn.Recover(r))
  {
    ghost var crashed := disk.root;
    assert cuts[..0] == [];
    for i := 0 to |cuts|
      invariant disk.root == Atomicity.Recoveries(crashed, cuts[..i])
    {
      disk.fuel := cuts[i];
      ghost var before := disk.Now();
      var ok := disk.RecoverResult();
      DidCut(before, Txn.Recover(before.root), disk.Now(), ok);
      RecoveriesNext(crashed, cuts, i);
    }
    assert cuts[..|cuts|] == cuts;
    disk.fuel := 7;
    ghost var before := disk.Now();
    RecoverIsShort(disk.root);
    var ok := disk.RecoverResult();
    DidCut(before, Txn.Recover(before.root), disk.Now(), ok);
  }

  /** An update that stops after `fuel` writes, and is then recovered: all or
      nothing, and all of it exactly if the pointer had moved. */
  method CrashAndRestart(r0: Root, a: Apply.Request, fuel: nat, cuts: seq<nat>) returns (crashed: Root, end: Root)
    requires Atomicity.AtRest(r0) && a.name != "" && a.to != ""
    ensures Atomicity.AllOrNothing(r0, a, end) && Atomicity.AtRest(end)
    ensures !Atomicity.Untouched(r0, a, end) ==>
              end.journal != [] && (Last(end.journal).state == Committed <==> crashed.current == a.to)
  {
    var disk := new InstallRoot(r0, fuel);
    ghost var before := disk.Now();
    var ok := disk.Update(a);
    DidCut(before, Apply.Update(r0, a), disk.Now(), ok);
    crashed := disk.root;
    Atomicity.CrashAtomic(r0, a, fuel, cuts);
    Restart(disk, cuts);
    end := disk.root;
  }

  predicate Unswapped(r: Root) {
    r.journal != [] && Last(r.journal).state in {Begin, Staged, Migrated}
  }

  /** An update that fails before its swap is recorded and undoes itself, the
      undoing stopped after some writes, and is then recovered: all or nothing. */
  method FailAndRestart(r0: Root, a: Apply.Request, fuel: nat, undo: nat, cuts: seq<nat>)
    returns (failed: Root, end: Root)
    requires Atomicity.AtRest(r0) && a.name != "" && a.to != ""
    ensures Unswapped(failed) ==> Atomicity.AllOrNothing(r0, a, end)
    ensures !Unswapped(failed) ==> end == failed
  {
    var disk := new InstallRoot(r0, fuel);
    ghost var before := disk.Now();
    var ok := disk.Update(a);
    DidCut(before, Apply.Update(r0, a), disk.Now(), ok);
    failed := disk.root;
    if Unswapped(failed) {
      disk.fuel := undo;
      before := disk.Now();
      ok := disk.Rollback();
      DidCut(before, Txn.Rollback(failed), disk.Now(), ok);
      Atomicity.FailedUpdate(r0, a, fuel, undo, cuts);
      Restart(disk, cuts);
    }
    end := disk.root;
  }

  /** An update that was deferred, is finished by a later start that stops after
      some writes, and is then recovered: all or nothing. */
  method DeferAndRestart(r0: Root, a: Apply.Request, fuel: nat, resume: nat, cuts: seq<nat>)
    returns (waiting: Root, end: Root)
    requires Atomicity.AtRest(r0) && a.name != "" && a.to != ""
    ensures !Atomicity.Untouched(r0, a, waiting) && Launch.Waiting(waiting) ==> Atomicity.AllOrNothing(r0, a, end)
  {
    var disk := new InstallRoot(r0, fuel);
    ghost var before := disk.Now();
    var ok := disk.Update(a);
    DidCut(before, Apply.Update(r0, a), disk.Now(), ok);
    waiting := disk.root;
    if !Atomicity.Untouched(r0, a, waiting) && Launch.Waiting(waiting) {
      disk.fuel := resume;
      before := disk.Now();
      ok := disk.ResumeDeferred();
      DidCut(before, Txn.ResumeDeferred(waiting), disk.Now(), ok);
      Atomicity.DeferredFinishes(r0, a, fuel, resume, cuts);
      Restart(disk, cuts);
    }
    end := disk.root;
  }

  // Starts that are tried again.

  lemma {:induction false} RetryNext(r: Root, tries: seq<Retries.Try>, i: nat)
    requires i < |tries|
    ensures var x := Retries.Retry(r, tries[..i]);
            Retries.Retry(r, tries[..i + 1]) == Cut(x, Launch.Start(x, tries[i].w), tries[i].cut)
    decreases i
  {
    var front := tries[..i + 1];
    assert front[0] == tries[0];
    var r1 := Cut(r, Launch.Start(r, tries[0].w), tries[0].cut);
    if i == 0 {
      assert front[1..] == [] && tries[..0] == [];
    } else {
      assert front[1..] == tries[1..][..i] && tries[..i][1..] == tries[1..][..i - 1];
      RetryNext(r1, tries[1..], i - 1);
    }
  }

  lemma ResumeIsShort(r: Root)
    ensures |Txn.ResumeDeferred(r).writes| <= 10
  {
    if r.journal != [] && Accepted(r.journal) && Last(r.journal).state == Deferred {
      var t := Last(r.journal);
      var p1 := Txn.Note(r, t.(state := Migrated));
      var p2 := if t.to in r.dirs then One(Point(t.to)) else REFUSED;
      var r2 := After(After(r, p1), p2);
      var p3 := Txn.Note(r2, t.(state := Swapped));
      var p4 := Txn.Complete(After(r2, p3), t.(state := Swapped));
      CompleteIsShort(After(r2, p3), t.(state := Swapped));
      assert |Then(p3, p4).writes| <= 8;
      assert |Then(p2, Then(p3, p4)).writes| <= 9;
    }
  }

  lemma {:induction false} RemovalsAreFew(listing: seq<Version>, keep: set<Version>, stuck: set<Version>)
    ensures |Apply.Removals(listing, keep, stuck)| <= 2 * |listing|
    decreases |listing|
  {
    if listing != [] {
      RemovalsAreFew(listing[1..], keep, stuck);
    }
  }

  lemma SettleIsShort(r: Root, running: bool)
    ensures |Trial.Settle(r, running).writes| <= 6
  {
    if Trial.Decide(r).Reverts? {
      var p, reason := r.probation.value, Trial.Decide(r).reason;
      var last := Then(One(PutProbation(Trial.Gone(p, reason))), Txn.RemoveVersion(p.version));
      assert |last.writes| == 3;
      assert |Then(Trial.RestoreInstall(r, p.previous), last).writes| <= 4;
    }
  }

  lemma StartIsShort(r: Root, w: Launch.World)
    ensures |Launch.Start(r, w).writes| <= 23 + 2 * |w.sweep.listing|
  {
    var recovered := Txn.Recover(r);
    var r1 := After(r, recovered);
    RecoverIsShort(r);
    ResumeIsShort(r1);
    var r2 := After(r1, Txn.ResumeDeferred(r1));
    RemovalsAreFew(w.sweep.listing, {r2.current} + Apply.Pins(r2) + w.sweep.window, w.sweep.stuck);
    SettleIsShort(r1, !w.reverts);
    SettleIsShort(After(r2, Apply.Collect(r2, w.sweep)), false);
    assert |Launch.Continue(r1, w).writes| <= 16 + 2 * |w.sweep.listing|;
  }

  /** Starts that each stop after some writes, and one that gets the lock and is
      left alone: it comes to what the root it finds says, and a rollback that is
      on course ends at the previous version. */
  method StartAgain(r: Root, tries: seq<Retries.Try>, w: Launch.World) returns (found: Root, end: Root, ok: bool)
    requires Machine.Sane(r) && Launch.Free(w)
    ensures Launch.ComesTo(found, w) && end == After(found, Launch.Start(found, w)) && ok == Launch.Start(found, w).ok
    ensures Retries.NoneSkips(tries) ==>
              forall v :: Retries.OnCourse(v, r) ==> ok && Trial.WentBack(v, end)
  {
    var disk := new InstallRoot(r, 0);
    assert tries[..0] == [];
    for i := 0 to |tries|
      invariant fresh(disk) && disk.root == Retries.Retry(r, tries[..i])
    {
      disk.fuel := tries[i].cut;
      ghost var before := disk.Now();
      ok := disk.Start(tries[i].w);
      DidCut(before, Launch.Start(before.root, tries[i].w), disk.Now(), ok);
      RetryNext(r, tries, i);
    }
    assert tries[..|tries|] == tries;
    found := disk.root;
    disk.fuel := 23 + 2 * |w.sweep.listing|;
    ghost var before := disk.Now();
    ok := disk.Start(w);
    StartIsShort(found, w);
    DidCut(before, Launch.Start(found, w), disk.Now(), ok);
    assert disk.root == After(found, Launch.Start(found, w)) by {
      var p := Launch.Start(found, w);
      assert p.writes[..|p.writes|] == p.writes;
    }
    end := disk.root;
    Retries.StartsOutcome(r, tries, w);
    if Retries.NoneSkips(tries) {
      forall v | Retries.OnCourse(v, r)
        ensures ok && Trial.WentBack(v, end)
      {
        Retries.RevertConverges(v, true, r, tries, w);
      }
    }
  }
}
