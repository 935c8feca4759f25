/** Removing an installation: the same tree whether or not it was interrupted,
    with the journal standing until everything it speaks for is gone, and
    nothing touched that is not the updater's own. */
module Uninstall {
  import opened Bytes
  import opened Decimal

  /** Paths are relative to the install root; the root itself is []. */
  type Path = seq<string>

  datatype Entry = File(content: string) | Link(target: Path) | Dir

  type Tree = map<Path, Entry>

  const CURRENT: Path := ["current"]
  const VERSIONS: Path := ["versions"]
  const META: Path := [".updater"]
  const JOURNAL: Path := [".updater", "journal.json"]

  function Parent(q: Path): Path
    requires q != []
  {
    q[..|q| - 1]
  }

  /** Every entry but the root sits in a plain directory. */
  ghost predicate WellFormed(fs: Tree) {
    forall q :: q in fs && q != [] ==> Parent(q) in fs && fs[Parent(q)] == Dir
  }

  // Which names are the updater's own.

  ghost predicate Holds(s: string, part: string) {
    exists a, b :: s == a + part + b
  }

  ghost predicate Ends(s: string, suffix: string) {
    exists a :: s == a + suffix
  }

  /** What is left of launchers that were replaced: one not yet renamed into place,
      and numbered ones moved aside. */
  ghost predicate Aside(name: string, self: string) {
    name == self + ".idunn-new.tmp" || exists n :: 1 <= n <= MAX_INT64 && name == self + ".idunn-old-" + Show(n)
  }

  /** The layout, litter of interrupted writes, the launcher and what is left of
      others. The launcher's own name is empty when the host names none. */
  ghost predicate OwnName(name: string, self: string) {
    || name in {"current", "versions", ".updater"}
    || (Holds(name, ".idunn-") && Ends(name, ".tmp"))
    || (self != "" && (name == self || Aside(name, self)))
  }

  ghost predicate Owned(q: Path, self: string) {
    q != [] && OwnName(q[0], self)
  }

  // How they are told.

  predicate EndsWith(s: string, suffix: string) {
    |suffix| <= |s| && s[|s| - |suffix|..] == suffix
  }

  predicate Contains(s: string, part: string) {
    part <= s || (s != "" && Contains(s[1..], part))
  }

  predicate Scratch(name: string) {
    Contains(name, ".idunn-") && EndsWith(name, ".tmp")
  }

  /** A count as it is written: digits without a leading zero, within an int. */
  predicate Count(s: string) {
    s != "" && s[0] != '0' && Digits(s) && Number(s) <= MAX_INT64
  }

  predicate Leftover(name: string, self: string) {
    || name == self + ".idunn-new.tmp"
    || (self + ".idunn-old-" <= name && Count(name[|self + ".idunn-old-"|..]))
  }

  lemma {:induction false} ContainsHolds(s: string, part: string)
    ensures Contains(s, part) <==> Holds(s, part)
    decreases |s|
  {
    if part <= s {
      assert s == "" + part + s[|part|..];
    } else if s != "" {
      ContainsHolds(s[1..], part);
      if Holds(s[1..], part) {
        var a, b :| s[1..] == a + part + b;
        assert s == ([s[0]] + a) + part + b;
      }
      if Holds(s, part) {
        var a, b :| s == a + part + b;
        assert a == "" ==> s == part + b && part <= s;
        assert s[1..] == a[1..] + part + b;
      }
    }
  }

  lemma EndsWithEnds(s: string, suffix: string)
    ensures EndsWith(s, suffix) <==> Ends(s, suffix)
  {
    if EndsWith(s, suffix) {
      assert s == s[..|s| - |suffix|] + suffix;
    }
  }

  lemma ScratchExactly(name: string)
    ensures Scratch(name) <==> Holds(name, ".idunn-") && Ends(name, ".tmp")
  {
    ContainsHolds(name, ".idunn-");
    EndsWithEnds(name, ".tmp");
  }

  lemma CountExactly(s: string)
    ensures Count(s) <==> exists n :: 1 <= n <= MAX_INT64 && s == Show(n)
  {
    if Count(s) {
      NumberShow(s);
    }
    forall n | 1 <= n <= MAX_INT64 && s == Show(n)
      ensures Count(s)
    {
      ShowNumber(n);
      ShowLeads(n);
    }
  }

  lemma LeftoverExactly(name: string, self: string)
    ensures Leftover(name, self) <==> Aside(name, self)
  {
    var front := self + ".idunn-old-";
    forall n | 1 <= n <= MAX_INT64 && name == front + Show(n)
      ensures Leftover(name, self)
    {
      assert name[|front|..] == Show(n);
      CountExactly(Show(n));
    }
    if front <= name && Count(name[|front|..]) {
      CountExactly(name[|front|..]);
      assert name == front + name[|front|..];
    }
  }

  ghost predicate Loose(fs: Tree, stuck: set<Path>, q: Path) {
    forall s :: s in stuck && s in fs ==> !(q <= s)
  }

  /** What removing everything at and below p leaves when some entries will not
      go: those, what is above them, and all that is elsewhere. */
  ghost function Pruned(fs: Tree, stuck: set<Path>, p: Path): Tree {
    map q | q in fs && !(p <= q && Loose(fs, stuck, q)) :: fs[q]
  }

  /** From one tree to another by removing entries at or below p, the contents of
      a directory before the directory. */
  ghost predicate Within(fs: Tree, fs': Tree, p: Path) {
    && fs'.Keys <= fs.Keys && (forall q :: q in fs' ==> fs'[q] == fs[q])
    && (forall q :: q in fs && !(p <= q) ==> q in fs')
    && WellFormed(fs')
  }

  ghost predicate NothingAt(fs: Tree, p: Path) {
    forall q :: q in fs ==> !(p <= q)
  }

  lemma PrefixTrans(a: Path, b: Path, c: Path)
    requires a <= b && b <= c
    ensures a <= c
  {
  }

  lemma WithinTrans(a: Tree, b: Tree, c: Tree, p: Path, q: Path)
    requires Within(a, b, p) && Within(b, c, q) && p <= q
    ensures Within(a, c, p)
  {
    forall x | x in a && !(p <= x)
      ensures x in c
    {
      if q <= x {
        PrefixTrans(p, q, x);
      }
    }
  }

  /** In a well-formed tree nothing is below what is not a directory. */
  lemma {:induction false} NothingBelow(fs: Tree, p: Path, q: Path)
    requires WellFormed(fs) && q in fs && p <= q && p != q
    ensures p in fs && fs[p] == Dir
    decreases |q|
  {
    if |q| - 1 == |p| {
      assert Parent(q) == p;
    } else {
      assert p <= Parent(q) && p != Parent(q);
      NothingBelow(fs, p, Parent(q));
    }
  }

  function Children(fs: Tree, p: Path): set<Path> {
    set q | q in fs && q != [] && Parent(q) == p
  }

  /** Everything below p is at or below a child of p. */
  lemma {:induction false} BelowAChild(fs: Tree, p: Path, q: Path)
    requires WellFormed(fs) && q in fs && p <= q && p != q
    ensures q[..|p| + 1] in Children(fs, p) && q[..|p| + 1] <= q
    decreases |q|
  {
    var c := q[..|p| + 1];
    assert Parent(c) == p;
    if c != q {
      NothingBelow(fs, c, q);
    }
  }

  /** The tree on disk. Entries in `stuck` cannot be removed. A crash is a point
      after which nothing is removed any more: `fuel` counts what still can be. */
  class Disk {
    var fs: Tree
    var fuel: nat
    const stuck: set<Path>

    constructor (fs: Tree, fuel: nat, stuck: set<Path>)
      ensures this.fs == fs && this.fuel == fuel && this.stuck == stuck
    {
      this.fs := fs;
      this.fuel := fuel;
      this.stuck := stuck;
    }

    /** Removes one entry: a file, a link itself, or an empty directory. */
    method Remove(p: Path) returns (ok: bool)
      requires WellFormed(fs)
      modifies this
      ensures WellFormed(fs) && fuel <= old(fuel)
      ensures ok ==> fs == old(fs) - {p} && (p in old(fs) ==> p !in stuck)
      ensures !ok ==> fs == old(fs) && p in fs && (p in stuck || fuel == 0 || Children(fs, p) != {})
      ensures old(fuel) == 0 ==> fs == old(fs)
    {
      if p !in fs {
        assert fs == fs - {p};
        return true;
      }
      if p in stuck || fuel == 0 || Children(fs, p) != {} {
        return false;
      }
      RemovesLeaf(fs, p);
      fs := fs - {p};
      fuel := fuel - 1;
      return true;
    }

    /** Removes p and everything below it, as much as can be. A link is removed
        as itself: what it points at is elsewhere. */
    method RemoveTree(p: Path) returns (ok: bool)
      requires WellFormed(fs)
      modifies this
      ensures Within(old(fs), fs, p) && fuel <= old(fuel)
      ensures ok <==> NothingAt(fs, p)
      ensures fuel > 0 ==> fs == Pruned(old(fs), stuck, p)
      decreases |Below(fs, p)|, 1
    {
      if p !in fs {
        NothingThere(fs, stuck, p);
        return true;
      }
      ghost var fs0 := fs;
      if fs[p] != Dir {
        LeafAlone(fs, p);
        ok := Remove(p);
        LeafPruned(fs0, stuck, p);
        assert p <= p;
        return;
      }
      ok := RemoveEach(p, Children(fs, p));
      ghost var fs1 := fs;
      if !ok {
        StillThere(fs0, fs1, p);
        if fuel > 0 {
          PrunedKeepsTop(fs0, stuck, p);
        }
        return;
      }
      AllGone(fs0, fs1, p);
      ok := Remove(p);
      RemovesLeaf(fs1, p);
      WithinTrans(fs0, fs1, fs, p, p);
      assert p <= p;
      if fuel > 0 {
        PrunedAll(fs0, fs1, stuck, p);
      }
    }

    /** Removes some children of a directory and all below them; one that will
        not go does not stop the others. */
    method RemoveEach(p: Path, chosen: set<Path>) returns (ok: bool)
      requires WellFormed(fs) && p in fs && chosen <= Children(fs, p)
      modifies this
      ensures WellFormed(fs) && fuel <= old(fuel)
      ensures Emptied(old(fs), fs, stuck, fuel, p, chosen, ok)
      decreases |Below(fs, p)|, 0
    {
      ghost var fs0 := fs;
      var todo := chosen;
      ok := true;
      NoneDone(fs, stuck, p);
      while todo != {}
        invariant todo <= chosen && WellFormed(fs) && fuel <= old(fuel)
        invariant Emptied(fs0, fs, stuck, fuel, p, chosen - todo, ok)
        decreases |todo|
      {
        var c :| c in todo;
        ghost var fs1, fuel1, done := fs, fuel, chosen - todo;
        FewerBelow(fs0, fs1, p, c);
        var gone := RemoveTree(c);
        EmptyStep(fs0, fs1, fs, stuck, fuel1, fuel, p, done, c, ok, gone);
        todo := todo - {c};
        assert chosen - todo == done + {c};
        ok := ok && gone;
      }
      assert chosen - todo == chosen;
    }

    /** The state directory, the journal last. */
    method RemoveMeta() returns (ok: bool)
      requires WellFormed(fs)
      modifies this
      ensures Within(old(fs), fs, META) && fuel <= old(fuel)
      ensures JournalLast(old(fs)) ==> JournalLast(fs)
      ensures ok ==> NothingAt(fs, META)
      ensures fuel > 0 && Removable(old(fs), stuck) ==> ok
    {
      ghost var fs0 := fs;
      if META !in fs {
        NothingThere(fs, stuck, META);
        return true;
      }
      if fs[META] != Dir {
        LeafAlone(fs, META);
        return false;
      }
      ok := RemoveEach(META, Children(fs, META) - {JOURNAL});
      ghost var fs1 := fs;
      JournalOnly(fs0, fs1, stuck, fuel, ok);
      if !ok {
        return;
      }
      ok := Remove(JOURNAL);
      ghost var fs2 := fs;
      JournalGone(fs1, fs2, ok);
      WithinTrans(fs0, fs1, fs2, META, META);
      if !ok {
        return;
      }
      ok := RemoveTree(META);
      WithinTrans(fs0, fs2, fs, META, META);
      OnlyMetaKept(fs2, fs, stuck, fuel);
    }

    /** Removes litter from the root and names what it does not own. */
    method SweepRoot(self: string) returns (ok: bool, kept: set<Path>)
      requires WellFormed(fs) && [] in fs
      requires CURRENT !in fs && VERSIONS !in fs && META !in fs
      modifies this
      ensures Between(old(fs), fs, self) && [] in fs && fuel <= old(fuel)
      ensures ok ==> forall q :: q in fs && q != [] && Owned(q, self) ==> q[0] == self != ""
      ensures kept == set q | q in Children(old(fs), []) && !OwnName(q[0], self)
      ensures fuel > 0 && Free(old(fs), stuck) ==> ok
    {
      ghost var fs0 := fs;
      var names := Children(fs, []);
      assert forall q :: q in names ==> |q| == 1;
      var chosen := set q | q in names && !(self != "" && q[0] == self)
                            && (Scratch(q[0]) || (self != "" && Leftover(q[0], self)));
      kept := set q | q in names && !(self != "" && q[0] == self) && q !in chosen;
      forall q | q in names
        ensures q in kept <==> !OwnName(q[0], self)
      {
        assert q == [q[0]];
        ScratchExactly(q[0]);
        LeftoverExactly(q[0], self);
      }
      ok := RemoveEach([], chosen);
      Swept(fs0, fs, stuck, fuel, chosen, ok, self);
    }

    /** Pointer, versions, then the records: each step only when the one before
        is finished. */
    method RemoveInstallation(self: string) returns (ok: bool)
      requires WellFormed(fs) && [] in fs && Speaks(fs)
      modifies this
      ensures Between(old(fs), fs, self) && [] in fs && fuel <= old(fuel)
      ensures Speaks(fs)
      ensures ok ==> CURRENT !in fs && VERSIONS !in fs && META !in fs
      ensures fuel > 0 && Removable(old(fs), stuck) ==> ok
    {
      ghost var fs0 := fs;
      ok := Remove(CURRENT);
      ghost var fs1 := fs;
      PointerGone(fs0, fs1, ok, self);
      if !ok {
        return;
      }
      ok := RemoveTree(VERSIONS);
      ghost var fs2 := fs;
      VersionsGone(fs0, fs1, fs2, stuck, fuel, ok, self);
      if !ok {
        return;
      }
      ok := RemoveMeta();
      MetaGone(fs0, fs2, fs, ok, self);
    }

    /** What is left beside the layout, the launcher, and the root if nothing is
        kept. A root that will not go is not a failure. */
    method RemoveRest(self: string) returns (ok: bool, kept: set<Path>)
      requires WellFormed(fs) && [] in fs && CURRENT !in fs && VERSIONS !in fs && META !in fs
      modifies this
      ensures Between(old(fs), fs, self) && Bare(fs)
      ensures ok ==> forall q :: q in fs && q != [] ==> !Owned(q, self)
      ensures kept == set q | q in Children(old(fs), []) && !OwnName(q[0], self)
      ensures fuel > 0 && Free(old(fs), stuck) && Children(old(fs), [self]) == {} ==> (ok && ([] in fs ==> kept != {}))
    {
      ghost var fs0 := fs;
      ok, kept := SweepRoot(self);
      ghost var fs1 := fs;
      StaysBare(fs0, fs1, self);
      if !ok {
        return;
      }
      if self != "" {
        ok := Remove([self]);
        SelfGone(fs0, fs1, fs, self, ok);
        if !ok {
          return;
        }
      }
      ghost var fs2 := fs;
      if kept == {} {
        assert forall q :: q in Children(fs0, []) && !OwnName(q[0], self) ==> q in kept;
        NothingKept(fs0, fs2, self);
        var rootGone := Remove([]);
        RootGone(fs0, fs2, fs, self);
      }
    }

    /** The uninstall, from its record in the journal on. It stops at the first
        step that could not be finished. */
    method Run(self: string) returns (ok: bool, kept: set<Path>)
      requires WellFormed(fs) && [] in fs && Speaks(fs)
      modifies this
      ensures Between(old(fs), fs, self)
      ensures forall q :: q in old(fs) && q != [] && !Owned(q, self) ==>
                q in fs && fs[q] == old(fs)[q] && (ok && |q| == 1 ==> q in kept)
      ensures Speaks(fs)
      ensures ok ==> fs - {[]} == Final(old(fs), self) - {[]}
      ensures ok ==> forall q :: q in kept <==> q in Final(old(fs), self) && |q| == 1
      ensures fuel > 0 && Removable(old(fs), stuck) && Children(old(fs), [self]) == {} ==>
                (ok && fs == Final(old(fs), self))
    {
      kept := {};
      ghost var fs0 := fs;
      ok := RemoveInstallation(self);
      ghost var fs1 := fs;
      if ok {
        ok, kept := RemoveRest(self);
        BetweenTrans(fs0, fs1, fs, self);
        Shrinks(fs0, fs1, stuck, self);
        if ok {
          Finished(fs0, fs1, fs, self, kept);
        }
      }
    }
  }

  /** Nothing in the way of a removal. */
  ghost predicate Free(fs: Tree, stuck: set<Path>) {
    forall q :: q in fs ==> q !in stuck
  }

  /** Nothing stuck, and the layout's own names are what the layout makes them. */
  ghost predicate Removable(fs: Tree, stuck: set<Path>) {
    && Free(fs, stuck)
    && Children(fs, CURRENT) == {} && Children(fs, JOURNAL) == {}
    && (META in fs ==> fs[META] == Dir)
  }

  /** The state directory is empty, if it is there at all. */
  ghost predicate OnlyMeta(fs: Tree) {
    forall q :: q in fs && META <= q ==> q == META
  }

  ghost predicate JournalLast(fs: Tree) {
    [".updater", "journal.json"] in fs || OnlyMeta(fs)
  }

  lemma JournalOnly(fs0: Tree, fs: Tree, stuck: set<Path>, fuel: nat, ok: bool)
    requires WellFormed(fs0) && META in fs0
    requires Emptied(fs0, fs, stuck, fuel, META, Children(fs0, META) - {JOURNAL}, ok)
    ensures Within(fs0, fs, META) && META in fs
    ensures ok ==> Children(fs, META) <= {JOURNAL}
    ensures JOURNAL in fs <==> JOURNAL in fs0
    ensures fuel > 0 && Free(fs0, stuck) ==> ok
    ensures Children(fs0, JOURNAL) == {} ==> Children(fs, JOURNAL) == {}
  {
    var done := Children(fs0, META) - {JOURNAL};
    if JOURNAL in fs0 {
      assert Parent(JOURNAL) == META;
      assert JOURNAL in Children(fs0, META) - done && JOURNAL <= JOURNAL;
    }
    if ok {
      forall c | c in Children(fs, META)
        ensures c == JOURNAL
      {
        assert c in Children(fs0, META) && c <= c;
        assert c in done ==> NothingAt(fs, c);
      }
    }
    if fuel > 0 && Free(fs0, stuck) {
      FreeSweep(fs0, fs, stuck, done);
    }
  }

  lemma JournalGone(fs1: Tree, fs2: Tree, ok: bool)
    requires WellFormed(fs1) && META in fs1 && Children(fs1, META) <= {JOURNAL}
    requires WellFormed(fs2) && fs2 == if ok then fs1 - {JOURNAL} else fs1
    requires !ok ==> JOURNAL in fs1
    ensures Within(fs1, fs2, META)
    ensures ok ==> OnlyMeta(fs2)
  {
    assert META <= JOURNAL;
    if ok {
      forall q | q in fs2 && META <= q
        ensures q == META
      {
        if q != META {
          BelowAChild(fs2, META, q);
        }
      }
    }
  }

  lemma OnlyMetaKept(fs2: Tree, fs: Tree, stuck: set<Path>, fuel: nat)
    requires OnlyMeta(fs2) && Within(fs2, fs, META) && (fuel > 0 ==> fs == Pruned(fs2, stuck, META))
    ensures OnlyMeta(fs)
    ensures fuel > 0 && Free(fs2, stuck) ==> NothingAt(fs, META)
  {
    if fuel > 0 && Free(fs2, stuck) {
      forall q | q in fs
        ensures !(META <= q)
      {
        assert Loose(fs2, stuck, q);
      }
    }
  }

  lemma RemovesLeaf(fs: Tree, p: Path)
    requires WellFormed(fs) && p in fs && Children(fs, p) == {}
    ensures WellFormed(fs - {p}) && Within(fs, fs - {p}, p)
  {
    forall q | q in fs - {p} && q != []
      ensures Parent(q) in fs - {p}
    {
      assert q in Children(fs, Parent(q));
    }
  }

  // What the walk below a directory keeps.

  function Below(fs: Tree, p: Path): set<Path> {
    set q | q in fs && p <= q
  }

  /** What removing everything at and below some of p's children leaves. */
  ghost function PrunedBelow(fs: Tree, stuck: set<Path>, done: set<Path>): Tree {
    map q | q in fs && !((exists c :: c in done && c <= q) && Loose(fs, stuck, q)) :: fs[q]
  }

  lemma NothingThere(fs: Tree, stuck: set<Path>, p: Path)
    requires WellFormed(fs) && p !in fs
    ensures NothingAt(fs, p) && fs == Pruned(fs, stuck, p)
  {
    forall q | q in fs
      ensures !(p <= q)
    {
      if p <= q && p != q {
        NothingBelow(fs, p, q);
      }
    }
  }

  lemma LeafAlone(fs: Tree, p: Path)
    requires WellFormed(fs) && p in fs && fs[p] != Dir
    ensures Children(fs, p) == {} && forall q :: q in fs && p <= q ==> q == p
  {
    forall q | q in fs && p <= q
      ensures q == p
    {
      if q != p {
        NothingBelow(fs, p, q);
      }
    }
  }

  lemma LeafPruned(fs: Tree, stuck: set<Path>, p: Path)
    requires WellFormed(fs) && p in fs && fs[p] != Dir
    ensures Within(fs, fs, p) && Within(fs, fs - {p}, p)
    ensures NothingAt(fs - {p}, p)
    ensures Pruned(fs, stuck, p) == if p in stuck then fs else fs - {p}
  {
    LeafAlone(fs, p);
    RemovesLeaf(fs, p);
    assert Loose(fs, stuck, p) <==> p !in stuck;
  }

  /** Some children of p have been seen to, the others not been touched. */
  ghost predicate Emptied(fs0: Tree, fs: Tree, stuck: set<Path>, fuel: nat, p: Path, done: set<Path>, ok: bool) {
    && Within(fs0, fs, p) && p in fs
    && (forall c, q :: c in Children(fs0, p) - done && q in fs0 && c <= q ==> q in fs)
    && (ok <==> forall c :: c in done ==> NothingAt(fs, c))
    && (fuel > 0 ==> fs == PrunedBelow(fs0, stuck, done))
  }

  lemma NoneDone(fs: Tree, stuck: set<Path>, p: Path)
    requires WellFormed(fs) && p in fs
    ensures forall fuel: nat :: Emptied(fs, fs, stuck, fuel, p, Children(fs, p) - Children(fs, p), true)
  {
    assert Children(fs, p) - Children(fs, p) == {};
    assert fs == PrunedBelow(fs, stuck, {});
  }

  lemma EmptyStep(fs0: Tree, fs1: Tree, fs2: Tree, stuck: set<Path>, fuel1: nat, fuel2: nat, p: Path, done: set<Path>,
                  c: Path, ok: bool, gone: bool)
    requires Emptied(fs0, fs1, stuck, fuel1, p, done, ok) && fuel2 <= fuel1
    requires done <= Children(fs0, p) && c in Children(fs0, p) - done
    requires Within(fs1, fs2, c) && (gone <==> NothingAt(fs2, c))
    requires fuel2 > 0 ==> fs2 == Pruned(fs1, stuck, c)
    ensures Emptied(fs0, fs2, stuck, fuel2, p, done + {c}, ok && gone)
  {
    var todo := Children(fs0, p) - done;
    Apart(fs0, fs1, fs2, p, c, todo);
    assert Children(fs0, p) - todo == done && Children(fs0, p) - (done + {c}) == todo - {c};
    if fuel2 > 0 {
      PruneStep(fs0, fs1, fs2, stuck, p, done, c);
    }
  }

  lemma FewerBelow(fs0: Tree, fs: Tree, p: Path, c: Path)
    requires fs.Keys <= fs0.Keys && c in Children(fs0, p) && p in fs0
    ensures |Below(fs, c)| < |Below(fs0, p)|
  {
    forall q | q in Below(fs, c)
      ensures q in Below(fs0, p) && q != p
    {
      PrefixTrans(p, c, q);
    }
    assert Below(fs, c) <= Below(fs0, p) - {p};
    Smaller(Below(fs, c), Below(fs0, p) - {p});
  }

  lemma {:induction false} Smaller(a: set<Path>, b: set<Path>)
    requires a <= b
    ensures |a| <= |b|
    decreases |a|
  {
    if a != {} {
      var x :| x in a;
      Smaller(a - {x}, b - {x});
    }
  }

  /** Removing below one child leaves the other children alone. */
  lemma Apart(fs0: Tree, fs1: Tree, fs2: Tree, p: Path, c: Path, todo: set<Path>)
    requires Within(fs0, fs1, p) && Within(fs1, fs2, c) && c in todo && todo <= Children(fs0, p) && p in fs1
    requires forall d, q :: d in todo && q in fs0 && d <= q ==> q in fs1
    ensures Within(fs0, fs2, p) && p in fs2
    ensures forall d, q :: d in todo - {c} && q in fs0 && d <= q ==> q in fs2
    ensures forall d :: d in Children(fs0, p) - todo ==> (NothingAt(fs1, d) <==> NothingAt(fs2, d))
  {
    WithinTrans(fs0, fs1, fs2, p, c);
    forall d, q | d in todo - {c} && q in fs0 && d <= q
      ensures q in fs2
    {
      Siblings(p, c, d, q);
    }
    forall d | d in Children(fs0, p) - todo
      ensures NothingAt(fs1, d) <==> NothingAt(fs2, d)
    {
      forall q | q in fs1 && d <= q
        ensures q in fs2
      {
        Siblings(p, c, d, q);
      }
    }
  }

  lemma Siblings(p: Path, c: Path, d: Path, q: Path)
    requires c != [] && d != [] && Parent(c) == p && Parent(d) == p && c != d && d <= q
    ensures !(c <= q)
  {
    var n := |p| + 1;
    assert |c| == n && |d| == n && d == q[..n];
    assert c <= q <==> c == q[..n];
  }

  lemma StillThere(fs0: Tree, fs: Tree, p: Path)
    requires exists c :: c in Children(fs0, p) && !NothingAt(fs, c)
    ensures !NothingAt(fs, p)
  {
    var c :| c in Children(fs0, p) && !NothingAt(fs, c);
    var q :| q in fs && c <= q;
    PrefixTrans(p, c, q);
  }

  lemma PruneStep(fs0: Tree, fs1: Tree, fs2: Tree, stuck: set<Path>, p: Path, done: set<Path>, c: Path)
    requires c in fs0 && fs1 == PrunedBelow(fs0, stuck, done) && fs2 == Pruned(fs1, stuck, c)
    requires forall q :: q in fs0 && c <= q ==> q in fs1
    ensures fs2 == PrunedBelow(fs0, stuck, done + {c})
  {
    forall q | q in fs0 && c <= q
      ensures Loose(fs1, stuck, q) <==> Loose(fs0, stuck, q)
    {
      forall x | x in stuck && q <= x && x in fs0
        ensures x in fs1
      {
        PrefixTrans(c, q, x);
      }
    }
    var want := PrunedBelow(fs0, stuck, done + {c});
    forall q | q in fs0
      ensures q in fs2 <==> q in want
    {
      assert (exists d :: d in done + {c} && d <= q) <==> ((exists d :: d in done && d <= q) || c <= q);
    }
    assert fs2.Keys == want.Keys;
  }

  /** A child that could not be emptied holds an entry that will not go. */
  lemma PrunedKeepsTop(fs: Tree, stuck: set<Path>, p: Path)
    requires WellFormed(fs) && p in fs
    requires var fs' := PrunedBelow(fs, stuck, Children(fs, p));
             exists c :: c in Children(fs, p) && !NothingAt(fs', c)
    ensures PrunedBelow(fs, stuck, Children(fs, p)) == Pruned(fs, stuck, p)
  {
    var fs' := PrunedBelow(fs, stuck, Children(fs, p));
    var c :| c in Children(fs, p) && !NothingAt(fs', c);
    var q :| q in fs' && c <= q;
    var x :| x in stuck && x in fs && q <= x;
    PrefixTrans(c, q, x);
    PrefixTrans(p, c, x);
    assert !Loose(fs, stuck, p);
    SameBelow(fs, stuck, p);
  }

  lemma SameBelow(fs: Tree, stuck: set<Path>, p: Path)
    requires WellFormed(fs) && p in fs && !Loose(fs, stuck, p)
    ensures PrunedBelow(fs, stuck, Children(fs, p)) == Pruned(fs, stuck, p)
  {
    var a, b := PrunedBelow(fs, stuck, Children(fs, p)), Pruned(fs, stuck, p);
    forall q | q in fs
      ensures q in a <==> q in b
    {
      BelowIff(fs, p, q);
    }
    assert a.Keys == b.Keys;
  }

  lemma BelowIff(fs: Tree, p: Path, q: Path)
    requires WellFormed(fs) && q in fs
    ensures (exists c :: c in Children(fs, p) && c <= q) <==> (p <= q && p != q)
  {
    if p <= q && p != q {
      BelowAChild(fs, p, q);
    }
    forall c | c in Children(fs, p) && c <= q
      ensures p <= q && p != q
    {
      PrefixTrans(p, c, q);
    }
  }

  lemma AllGone(fs0: Tree, fs: Tree, p: Path)
    requires Within(fs0, fs, p) && p in fs
    requires forall c :: c in Children(fs0, p) ==> NothingAt(fs, c)
    ensures Children(fs, p) == {} && NothingAt(fs - {p}, p)
  {
    forall q | q in fs && p <= q
      ensures q == p
    {
      if q != p {
        ChildBefore(fs0, fs, p, q);
      }
    }
  }

  lemma ChildBefore(fs0: Tree, fs: Tree, p: Path, q: Path)
    requires WellFormed(fs) && fs.Keys <= fs0.Keys && q in fs && p <= q && p != q
    ensures q[..|p| + 1] in Children(fs0, p) && q[..|p| + 1] <= q && q[..|p| + 1][0] == q[0]
  {
    BelowAChild(fs, p, q);
  }

  lemma PrunedAll(fs0: Tree, fs1: Tree, stuck: set<Path>, p: Path)
    requires WellFormed(fs0) && p in fs0 && fs1 == PrunedBelow(fs0, stuck, Children(fs0, p)) && p in fs1
    requires Children(fs1, p) == {} && WellFormed(fs1)
    ensures Pruned(fs0, stuck, p) == if p in stuck then fs1 else fs1 - {p}
  {
    OnlyTop(fs1, p);
    if p in stuck {
      assert !Loose(fs0, stuck, p);
      SameBelow(fs0, stuck, p);
    } else {
      forall x | x in stuck && x in fs0
        ensures !(p <= x)
      {
        assert !Loose(fs0, stuck, x);
        assert x in fs1;
      }
      PrunedToNothing(fs0, fs1, stuck, p);
    }
  }

  lemma OnlyTop(fs: Tree, p: Path)
    requires WellFormed(fs) && Children(fs, p) == {}
    ensures forall q :: q in fs && p <= q ==> q == p
  {
    forall q | q in fs && p <= q
      ensures q == p
    {
      if q != p {
        BelowAChild(fs, p, q);
      }
    }
  }

  lemma PrunedToNothing(fs0: Tree, fs1: Tree, stuck: set<Path>, p: Path)
    requires WellFormed(fs0) && p in fs0 && fs1 == PrunedBelow(fs0, stuck, Children(fs0, p))
    requires forall q :: q in fs1 && p <= q ==> q == p
    requires forall x :: x in stuck && x in fs0 ==> !(p <= x)
    ensures Pruned(fs0, stuck, p) == fs1 - {p}
  {
    var a, b := Pruned(fs0, stuck, p), fs1 - {p};
    forall q | q in fs0
      ensures q in a <==> q in b
    {
      BelowIff(fs0, p, q);
      if p <= q {
        forall x | x in stuck && x in fs0
          ensures !(q <= x)
        {
          if q <= x {
            PrefixTrans(p, q, x);
          }
        }
        assert Loose(fs0, stuck, q);
      }
    }
    assert a.Keys == b.Keys;
  }

  // The uninstall as a whole.

  /** Only entries of the updater's own went, contents before directories; the
      root itself only when nothing else was in it. */
  ghost predicate Between(fs: Tree, fs': Tree, self: string) {
    && fs'.Keys <= fs.Keys && (forall q :: q in fs' ==> fs'[q] == fs[q])
    && (forall q :: q in fs && q != [] && !Owned(q, self) ==> q in fs')
    && WellFormed(fs')
  }

  /** Pointer, versions and every record are gone. */
  ghost predicate Bare(fs: Tree) {
    CURRENT !in fs && VERSIONS !in fs && OnlyMeta(fs)
  }

  /** The tree an uninstall ends in: what is not the updater's, and the root if
      that leaves anything in it. */
  ghost function Final(fs: Tree, self: string): Tree {
    map q | q in fs && (if q == [] then exists x :: x in fs && x != [] && !Owned(x, self) else !Owned(q, self)) :: fs[q]
  }

  lemma BetweenTrans(a: Tree, b: Tree, c: Tree, self: string)
    requires Between(a, b, self) && Between(b, c, self)
    ensures Between(a, c, self)
  {
  }

  lemma ForeignStays(fs0: Tree, fs: Tree, self: string)
    requires Between(fs0, fs, self) && WellFormed(fs0) && [] in Final(fs0, self)
    ensures [] in Final(fs, self)
  {
    var x :| x in fs0 && x != [] && !Owned(x, self);
    assert x in fs;
    NothingBelow(fs, [], x);
  }

  /** However far a run got, running it again ends in the same tree. */
  lemma RerunSameTree(fs0: Tree, fs: Tree, self: string)
    requires Between(fs0, fs, self) && WellFormed(fs0)
    ensures Final(fs, self) == Final(fs0, self)
  {
    var a, b := Final(fs, self), Final(fs0, self);
    forall q | q in fs0
      ensures q in a <==> q in b
    {
      if q == [] && q in b {
        ForeignStays(fs0, fs, self);
      }
    }
    assert a.Keys == b.Keys;
  }

  lemma OwnedWithin(fs: Tree, fs': Tree, p: Path, self: string)
    requires Within(fs, fs', p) && p != [] && OwnName(p[0], self)
    ensures Between(fs, fs', self)
  {
    forall q | q in fs && p <= q
      ensures Owned(q, self)
    {
      assert q[0] == p[0];
    }
  }

  /** The journal stands, or all it speaks for is gone. */
  ghost predicate Speaks(fs: Tree) {
    [".updater", "journal.json"] in fs || Bare(fs)
  }

  lemma Shrinks(fs0: Tree, fs: Tree, stuck: set<Path>, self: string)
    requires Between(fs0, fs, self)
    ensures Bare(fs0) ==> Bare(fs)
    ensures Free(fs0, stuck) ==> Free(fs, stuck)
    ensures Removable(fs0, stuck) ==> Removable(fs, stuck)
    ensures forall p :: Children(fs, p) <= Children(fs0, p)
  {
  }

  lemma PointerGone(fs0: Tree, fs: Tree, ok: bool, self: string)
    requires WellFormed(fs0) && WellFormed(fs) && Speaks(fs0) && fs == if ok then fs0 - {CURRENT} else fs0
    ensures Between(fs0, fs, self) && Speaks(fs)
  {
    assert Owned(CURRENT, self);
  }

  lemma VersionsGone(fs0: Tree, fs1: Tree, fs2: Tree, stuck: set<Path>, fuel: nat, ok: bool, self: string)
    requires Between(fs0, fs1, self) && Speaks(fs1) && CURRENT !in fs1 && Within(fs1, fs2, VERSIONS)
    requires (ok <==> NothingAt(fs2, VERSIONS)) && (fuel > 0 ==> fs2 == Pruned(fs1, stuck, VERSIONS))
    ensures Between(fs0, fs2, self) && Speaks(fs2) && CURRENT !in fs2
    ensures ok ==> VERSIONS !in fs2
    ensures fuel > 0 && Free(fs0, stuck) ==> ok
  {
    OwnedWithin(fs1, fs2, VERSIONS, self);
    BetweenTrans(fs0, fs1, fs2, self);
    assert !(VERSIONS <= JOURNAL) by {
      assert VERSIONS[0] != JOURNAL[0];
    }
    assert VERSIONS <= VERSIONS;
    if fuel > 0 && Free(fs0, stuck) {
      forall q | q in fs2
        ensures !(VERSIONS <= q)
      {
        assert Loose(fs1, stuck, q);
      }
    }
  }

  lemma MetaGone(fs0: Tree, fs2: Tree, fs: Tree, ok: bool, self: string)
    requires Between(fs0, fs2, self) && [] in fs2 && CURRENT !in fs2 && VERSIONS !in fs2
    requires Within(fs2, fs, META) && (JournalLast(fs2) ==> JournalLast(fs)) && Speaks(fs2)
    requires ok ==> NothingAt(fs, META)
    ensures Between(fs0, fs, self) && [] in fs && Speaks(fs)
    ensures CURRENT !in fs && VERSIONS !in fs
    ensures ok ==> META !in fs
  {
    OwnedWithin(fs2, fs, META, self);
    BetweenTrans(fs0, fs2, fs, self);
    assert META <= META;
  }

  lemma StaysBare(fs0: Tree, fs: Tree, self: string)
    requires WellFormed(fs0) && CURRENT !in fs0 && VERSIONS !in fs0 && META !in fs0 && Between(fs0, fs, self)
    ensures Bare(fs0) && Bare(fs)
  {
    NothingThere(fs0, {}, META);
  }

  lemma SelfGone(fs0: Tree, fs1: Tree, fs: Tree, self: string, ok: bool)
    requires Between(fs0, fs1, self) && self != "" && WellFormed(fs)
    requires Bare(fs0) && fs == if ok then fs1 - {[self]} else fs1
    requires forall q :: q in fs1 && q != [] && Owned(q, self) ==> q[0] == self
    ensures Between(fs0, fs, self) && Bare(fs)
    ensures ok ==> forall q :: q in fs && q != [] ==> !Owned(q, self)
  {
    assert Owned([self], self);
    if ok {
      forall q | q in fs && q != []
        ensures !Owned(q, self)
      {
        if q[0] == self {
          assert [self] <= q;
          NothingThere(fs, {}, [self]);
        }
      }
    }
  }

  lemma NothingKept(fs0: Tree, fs: Tree, self: string)
    requires WellFormed(fs0) && Between(fs0, fs, self)
    requires forall q :: q in fs && q != [] ==> !Owned(q, self)
    requires forall q :: q in Children(fs0, []) ==> OwnName(q[0], self)
    ensures Children(fs, []) == {} && forall q :: q in fs ==> q == []
  {
    forall q | q in fs
      ensures q == []
    {
      if q != [] {
        ChildBefore(fs0, fs, [], q);
      }
    }
  }

  lemma RootGone(fs0: Tree, fs2: Tree, fs: Tree, self: string)
    requires Between(fs0, fs2, self) && Bare(fs2) && WellFormed(fs) && (fs == fs2 || fs == fs2 - {[]})
    requires forall q :: q in fs2 ==> q == []
    ensures Between(fs0, fs, self) && Bare(fs)
  {
  }

  lemma Finished(fs0: Tree, fs1: Tree, fs: Tree, self: string, kept: set<Path>)
    requires WellFormed(fs0) && Between(fs0, fs1, self) && Between(fs1, fs, self)
    requires forall q :: q in fs && q != [] ==> !Owned(q, self)
    requires kept == set q | q in Children(fs1, []) && !OwnName(q[0], self)
    ensures fs - {[]} == Final(fs0, self) - {[]}
    ensures forall q :: q in kept <==> q in Final(fs0, self) && |q| == 1
    ensures ([] in fs ==> kept != {}) ==> fs == Final(fs0, self)
  {
    BetweenTrans(fs0, fs1, fs, self);
    RestIsFinal(fs0, fs, self);
    KeptIsFinal(fs0, fs1, self, kept);
    if [] in fs ==> kept != {} {
      RootIsFinal(fs0, fs, self, kept);
      AllIsFinal(fs0, fs, self);
    }
  }

  lemma AllIsFinal(fs0: Tree, fs: Tree, self: string)
    requires Between(fs0, fs, self) && forall q :: q in fs <==> q in Final(fs0, self)
    ensures fs == Final(fs0, self)
  {
    assert fs.Keys == Final(fs0, self).Keys;
  }

  lemma RestIsFinal(fs0: Tree, fs: Tree, self: string)
    requires Between(fs0, fs, self) && forall q :: q in fs && q != [] ==> !Owned(q, self)
    ensures forall q :: q != [] ==> (q in fs <==> q in Final(fs0, self))
    ensures fs - {[]} == Final(fs0, self) - {[]}
  {
    assert (fs - {[]}).Keys == (Final(fs0, self) - {[]}).Keys;
  }

  lemma RootIsFinal(fs0: Tree, fs: Tree, self: string, kept: set<Path>)
    requires Between(fs0, fs, self) && ([] in fs ==> kept != {})
    requires forall q :: q != [] ==> (q in fs <==> q in Final(fs0, self))
    requires forall q :: q in kept <==> q in Final(fs0, self) && |q| == 1
    ensures [] in fs <==> [] in Final(fs0, self)
  {
    if [] in Final(fs0, self) {
      var x :| x in fs0 && x != [] && !Owned(x, self);
      assert x in fs;
      NothingBelow(fs, [], x);
    }
    if [] in fs {
      var q :| q in kept;
      assert q in Final(fs0, self) && q in fs0 && q != [] && !Owned(q, self);
    }
  }

  lemma KeptIsFinal(fs0: Tree, fs1: Tree, self: string, kept: set<Path>)
    requires Between(fs0, fs1, self) && kept == set q | q in Children(fs1, []) && !OwnName(q[0], self)
    ensures forall q :: q in kept <==> q in Final(fs0, self) && |q| == 1
  {
    forall q
      ensures q in kept <==> q in Final(fs0, self) && |q| == 1
    {
      if |q| == 1 {
        assert Parent(q) == [];
      }
    }
  }

  lemma Swept(fs0: Tree, fs: Tree, stuck: set<Path>, fuel: nat, chosen: set<Path>, ok: bool, self: string)
    requires WellFormed(fs0) && [] in fs0 && CURRENT !in fs0 && VERSIONS !in fs0 && META !in fs0
    requires chosen <= Children(fs0, []) && Emptied(fs0, fs, stuck, fuel, [], chosen, ok)
    requires forall q :: q in Children(fs0, []) ==>
               |q| == 1 && (q in chosen <==> OwnName(q[0], self) && !(self != "" && q[0] == self))
    ensures Between(fs0, fs, self) && [] in fs
    ensures ok ==> forall q :: q in fs && q != [] && Owned(q, self) ==> q[0] == self != ""
    ensures fuel > 0 && Free(fs0, stuck) ==> ok
  {
    forall q | q in fs0 && q != []
      ensures !Owned(q, self) ==> q in fs
      ensures ok && q in fs && Owned(q, self) ==> q[0] == self != ""
    {
      SweptOne(fs0, fs, stuck, fuel, chosen, ok, self, q);
    }
    if fuel > 0 && Free(fs0, stuck) {
      FreeSweep(fs0, fs, stuck, chosen);
    }
  }

  lemma SweptOne(fs0: Tree, fs: Tree, stuck: set<Path>, fuel: nat, chosen: set<Path>, ok: bool, self: string, q: Path)
    requires WellFormed(fs0) && Emptied(fs0, fs, stuck, fuel, [], chosen, ok) && q in fs0 && q != []
    requires forall c :: c in Children(fs0, []) ==>
               |c| == 1 && (c in chosen <==> OwnName(c[0], self) && !(self != "" && c[0] == self))
    ensures !Owned(q, self) ==> q in fs
    ensures ok && q in fs && Owned(q, self) ==> q[0] == self != ""
  {
    BelowAChild(fs0, [], q);
    var c := q[..1];
    assert c[0] == q[0];
    assert c in Children(fs0, []) - chosen ==> q in fs;
    assert c in chosen && ok ==> NothingAt(fs, c);
  }

  lemma FreeSweep(fs0: Tree, fs: Tree, stuck: set<Path>, done: set<Path>)
    requires Free(fs0, stuck) && fs == PrunedBelow(fs0, stuck, done)
    ensures forall c :: c in done ==> NothingAt(fs, c)
  {
    forall c | c in done
      ensures NothingAt(fs, c)
    {
      forall q | q in fs
        ensures !(c <= q)
      {
        assert Loose(fs0, stuck, q) && q in PrunedBelow(fs0, stuck, done);
        assert !exists d :: d in done && d <= q;
      }
    }
  }
}
