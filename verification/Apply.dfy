/** Installing one release: the transaction proper, in the order its effects
    reach the disk. */
module Apply {
  import opened Bytes
  import opened Journal
  import opened Install
  import opened Txn
  import opened Trial

  /** A release to install, and what the world answers on the way. */
  datatype Request = Request(
    name: string,
    from: Version,               // the version it was resolved against
    to: Version,
    admitted: bool,              // applicable, checks passed, confirmed
    allow: Allowance,
    launcher: Option<Launcher>,  // the launcher it ships, if any
    flushed: bool,               // the new directory's entry reached the disk
    defers: bool,                // an instance runs, and the policy is to wait
    failed: Option<nat>,         // the promotion failed, after that many writes
    sweep: Sweep)

  /** One collection of old versions: what the window keeps, the order of the
      listing, and the directories that will not go. */
  datatype Sweep = Sweep(window: set<Version>, listing: seq<Version>, stuck: set<Version>)

  // The pieces.

  /** Whatever an abandoned attempt left is cleared; the tree is built aside and
      becomes the version directory in one rename. */
  function Stage(r: Root, a: Request): Plan {
    Then(Plan([ClearStage(a.to), MakeStage(a.to), DropPending(a.to)]
              + (if a.launcher.Some? then [PutPending(a.to, a.launcher.value)] else []), true),
         if a.to in r.dirs then REFUSED
         else if a.flushed then One(Place(a.to))
         else Plan([Place(a.to), Tear(a.to), Drop(a.to)], false))
  }

  /** A swap needs its target to exist. */
  function Swap(r: Root, v: Version): Plan {
    if v in r.dirs then One(Point(v)) else REFUSED
  }

  /** The target of a rollback that may still come. */
  function Pins(r: Root): set<Version> {
    PinnedBy(r.probation)
  }

  function PinnedBy(p: Option<Probation>): set<Version> {
    if p.Some? && p.value.status in {Active, Unhealthy, Reverting} then {p.value.previous} else {}
  }

  /** What a collection may remove, the live version aside. */
  function SweptBy(p: Option<Probation>, s: Sweep): set<Version> {
    set v | v in s.listing && v !in s.window && v !in PinnedBy(p)
  }

  function Removal(v: Version, keep: set<Version>, stuck: set<Version>): seq<Write> {
    if v in keep then [] else if v in stuck then [Tear(v)] else [Tear(v), Drop(v)]
  }

  function Removals(listing: seq<Version>, keep: set<Version>, stuck: set<Version>): seq<Write> {
    if listing == [] then [] else Removal(listing[0], keep, stuck) + Removals(listing[1..], keep, stuck)
  }

  /** Collecting old versions. A directory that will not go is left for the next
      time. */
  function Collect(r: Root, s: Sweep): Plan {
    if r.current == "" then DONE
    else Plan(Removals(s.listing, {r.current} + Pins(r) + s.window, s.stuck), true)
  }

  /** Promoting the launcher of a committed transaction never unmakes it: if it
      fails, the staging tree stays for the next recovery. */
  function Promotion(r: Root, a: Request): Plan {
    var promote := PromoteLauncher(r, a.to);
    if a.failed.Some?
    then Plan(promote.writes[..if a.failed.value < |promote.writes| then a.failed.value else |promote.writes|], true)
    else Then(promote, CleanOrphans())
  }

  // The transaction, from its last step to its first.

  function Tidy(r: Root, a: Request): Plan {
    var promoted := Promotion(r, a);
    Then(promoted, Collect(After(r, promoted), a.sweep))
  }

  function Commit(r: Root, a: Request, t: Record): Plan {
    var state := One(PutInstall(InstallState(a.name, a.to)));
    var committed := Note(After(r, state), t.(state := Committed));
    Then(state, Then(committed, Tidy(After(After(r, state), committed), a)))
  }

  function Switch(r: Root, a: Request, t: Record): Plan {
    var swap := Swap(r, a.to);
    var swapped := Note(After(r, swap), t.(state := Swapped));
    Then(swap, Then(swapped, Commit(After(After(r, swap), swapped), a, t)))
  }

  function Migrate(r: Root, a: Request, t: Record): Plan {
    var migrated := Note(r, t.(state := Migrated));
    Then(migrated, Switch(After(r, migrated), a, t))
  }

  /** Either waits for a start with nothing running, or goes ahead. */
  function Quiesce(r: Root, a: Request, t: Record): Plan {
    if a.defers then Then(Note(r, t.(state := Deferred)), REFUSED) else Migrate(r, a, t)
  }

  function Fill(r: Root, a: Request, t: Record): Plan {
    var stage := Stage(r, a);
    var staged := Note(After(r, stage), t.(state := Staged));
    Then(stage, Then(staged, Quiesce(After(After(r, stage), staged), a, t)))
  }

  function Transact(r: Root, a: Request): Plan {
    var t := Record(Begin, a.name, r.current, a.to);
    var begun := Note(r, t);
    Then(begun, Fill(After(r, begun), a, t))
  }

  /** What refuses an update on a settled root before anything is recorded. */
  predicate Refuses(r: Root, a: Request) {
    || (r.journal != [] && Last(r.journal).state == Deferred && Last(r.journal).to == a.to)
    || r.current != a.from
    || r.current == a.to
    || !a.admitted
    || BlockedReason(r, a.to) != ""
  }

  function Proceed(r: Root, a: Request): Plan {
    var armed := Arm(r, a.to, a.allow);
    Then(armed, Transact(After(r, armed), a))
  }

  function Attempt(r: Root, a: Request): Plan {
    if Refuses(r, a) then REFUSED else Proceed(r, a)
  }

  /** The whole of an update: recovery first. */
  ghost function Update(r: Root, a: Request): Plan {
    var recovered := Recover(r);
    Then(recovered, Attempt(After(r, recovered), a))
  }

  lemma {:induction false} RemovalsResult(r: Root, listing: seq<Version>, keep: set<Version>, stuck: set<Version>, v: Version)
    ensures var r' := Exec(r, Removals(listing, keep, stuck));
            && (v in r'.dirs <==> v in r.dirs && (v in keep || v !in listing || v in stuck))
            && (v in r.dirs && (v in keep || v !in listing) ==> v in r'.dirs && r'.dirs[v] == r.dirs[v])
            && (v in r'.dirs && v !in keep && v in listing ==> !r'.dirs[v])
            && r' == r.(dirs := r'.dirs)
    decreases |listing|
  {
    if listing != [] {
      var u := listing[0];
      var ws, rest := Removal(u, keep, stuck), Removals(listing[1..], keep, stuck);
      ExecConcat(r, ws, rest);
      var r1 := Exec(r, ws);
      assert [Tear(u)][1..] == [] && [Tear(u), Drop(u)][1..] == [Drop(u)] && [Drop(u)][1..] == [];
      assert u !in keep && u !in stuck ==> r1 == Do(Do(r, Tear(u)), Drop(u)) by {
        assert Exec(Do(r, Tear(u)), [Drop(u)]) == Do(Do(r, Tear(u)), Drop(u));
      }
      assert u !in keep && u in stuck ==> r1 == Do(r, Tear(u));
      RemovalsResult(r1, listing[1..], keep, stuck, v);
    }
  }

  /** A collection removes exactly what was listed, is not live, not a version a
      probation returns to, not within the window, and lets itself be removed;
      what it keeps it leaves whole. */
  lemma CollectResult(r: Root, s: Sweep, v: Version)
    requires r.current != ""
    ensures var r' := After(r, Collect(r, s));
            var kept := v == r.current || v in Pins(r) || v in s.window || v !in s.listing;
            && (v in r'.dirs <==> v in r.dirs && (kept || v in s.stuck))
            && (v in r.dirs && kept ==> v in r'.dirs && r'.dirs[v] == r.dirs[v])
            && (v in r'.dirs && !kept ==> !r'.dirs[v])
            && r' == r.(dirs := r'.dirs)
  {
    RemovalsResult(r, s.listing, {r.current} + Pins(r) + s.window, s.stuck, v);
  }
}
