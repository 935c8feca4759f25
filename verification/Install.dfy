/** An install root as a record, the durable writes that change it, and plans:
    what an operation would write, in order.

    Every write here is one atomic replacement (a rename, or a whole file written
    through one), except removing a version directory, which can be caught half
    way. A crash and a failed write look the same from outside: the operation
    stops, and what it wrote is a prefix of its plan. */
module Install {
  import opened Bytes
  import opened Journal

  type Version = string // "" stands for none

  datatype Launcher = Launcher(name: string, image: string)

  datatype InstallState = InstallState(name: string, version: Version)

  datatype Status = Active | Confirmed | Unhealthy | Reverting | Reverted | Kept

  datatype Blocked = Blocked(version: Version, reason: string)

  /** What is on file about a version under observation. */
  datatype Probation = Probation(
    version: Version, previous: Version, status: Status,
    attempts: nat, attemptsAllowed: nat,
    restarts: nat, restartsAllowed: nat, restartPending: bool,
    reason: string, blocked: Option<Blocked>)

  datatype Root = Root(
    journal: seq<Record>,
    current: Version,
    dirs: map<Version, bool>,         // version directories; true when every file is in place
    install: Option<InstallState>,
    staged: set<Version>,             // staging trees
    pending: map<Version, Launcher>,  // launchers waiting for their transaction to commit
    next: Option<Launcher>,           // the launcher the next start swaps in
    probation: Option<Probation>)

  datatype Write =
    | SetJournal(h: seq<Record>) | DropJournal
    | Point(v: Version) | Unpoint
    | Place(v: Version)                     // staging tree becomes a version directory
    | Tear(v: Version) | Drop(v: Version)   // a version directory going, and gone
    | PutInstall(i: InstallState) | DropInstall
    | MakeStage(v: Version) | ClearStage(v: Version)
    | PutPending(v: Version, l: Launcher) | DropPending(v: Version)
    | SweepPending | SweepStaging
    | DropNext | Promote(v: Version)        // pending launcher becomes the next one
    | PutProbation(p: Probation) | DropProbation

  function Do(r: Root, w: Write): Root {
    match w
    case SetJournal(h) => r.(journal := h)
    case DropJournal => r.(journal := [])
    case Point(v) => r.(current := v)
    case Unpoint => r.(current := "")
    case Place(v) => r.(dirs := r.dirs[v := true], staged := r.staged - {v})
    case Tear(v) => if v in r.dirs then r.(dirs := r.dirs[v := false]) else r
    case Drop(v) => r.(dirs := r.dirs - {v})
    case PutInstall(i) => r.(install := Some(i))
    case DropInstall => r.(install := None)
    case MakeStage(v) => r.(staged := r.staged + {v})
    case ClearStage(v) => r.(staged := r.staged - {v})
    case PutPending(v, l) => r.(pending := r.pending[v := l])
    case DropPending(v) => r.(pending := r.pending - {v})
    case SweepPending => r.(pending := map[])
    case SweepStaging => r.(staged := {})
    case DropNext => r.(next := None)
    case Promote(v) =>
      if v in r.pending then r.(next := Some(r.pending[v]), pending := r.pending - {v}) else r
    case PutProbation(p) => r.(probation := Some(p))
    case DropProbation => r.(probation := None)
  }

  function Exec(r: Root, ws: seq<Write>): Root
    decreases |ws|
  {
    if ws == [] then r else Exec(Do(r, ws[0]), ws[1..])
  }

  lemma {:induction false} ExecConcat(r: Root, a: seq<Write>, b: seq<Write>)
    ensures Exec(r, a + b) == Exec(Exec(r, a), b)
    decreases |a|
  {
    if a == [] {
      assert a + b == b;
    } else {
      assert (a + b)[0] == a[0] && (a + b)[1..] == a[1..] + b;
      ExecConcat(Do(r, a[0]), a[1..], b);
    }
  }

  /** What an operation writes, and whether it succeeds once all of it is
      written. */
  datatype Plan = Plan(writes: seq<Write>, ok: bool)

  const DONE := Plan([], true)
  const REFUSED := Plan([], false)

  function One(w: Write): Plan {
    Plan([w], true)
  }

  function Then(p: Plan, q: Plan): Plan {
    if p.ok then Plan(p.writes + q.writes, q.ok) else p
  }

  /** The root after all of a plan. */
  function After(r: Root, p: Plan): Root {
    Exec(r, p.writes)
  }

  /** The root after a plan was cut: only its first k writes happened. */
  function Cut(r: Root, p: Plan, k: nat): Root {
    Exec(r, p.writes[..if k < |p.writes| then k else |p.writes|])
  }

  lemma AfterThen(r: Root, p: Plan, q: Plan)
    requires p.ok
    ensures After(r, Then(p, q)) == After(After(r, p), q)
  {
    ExecConcat(r, p.writes, q.writes);
  }

  /** A cut in the second part of a plan. */
  lemma CutThen(r: Root, p: Plan, q: Plan, k: nat)
    requires p.ok
    ensures Cut(r, Then(p, q), |p.writes| + k) == Cut(After(r, p), q, k)
  {
    var m := if k < |q.writes| then k else |q.writes|;
    ExecConcat(r, p.writes, q.writes[..m]);
    assert (p.writes + q.writes)[..|p.writes| + m] == p.writes + q.writes[..m];
  }

  // What holds at every point of a plan.

  ghost predicate Always(inv: Root -> bool, r: Root, ws: seq<Write>)
    decreases |ws|
  {
    inv(r) && (ws != [] ==> Always(inv, Do(r, ws[0]), ws[1..]))
  }

  lemma {:induction false} AlwaysConcat(inv: Root -> bool, r: Root, a: seq<Write>, b: seq<Write>)
    requires Always(inv, r, a) && Always(inv, Exec(r, a), b)
    ensures Always(inv, r, a + b)
    decreases |a|
  {
    if a == [] {
      assert a + b == b;
    } else {
      assert (a + b)[0] == a[0] && (a + b)[1..] == a[1..] + b;
      AlwaysConcat(inv, Do(r, a[0]), a[1..], b);
    }
  }

  lemma AlwaysThen(inv: Root -> bool, r: Root, p: Plan, q: Plan)
    requires Always(inv, r, p.writes)
    requires p.ok ==> Always(inv, After(r, p), q.writes)
    ensures Always(inv, r, Then(p, q).writes)
  {
    if p.ok {
      AlwaysConcat(inv, r, p.writes, q.writes);
    }
  }

  lemma AlwaysOne(inv: Root -> bool, r: Root, w: Write)
    requires inv(r) && inv(Do(r, w))
    ensures Always(inv, r, [w]) && Exec(r, [w]) == Do(r, w)
  {
    assert [w][1..] == [];
  }

  lemma AlwaysTwo(inv: Root -> bool, r: Root, a: Write, b: Write)
    requires inv(r) && inv(Do(r, a)) && inv(Do(Do(r, a), b))
    ensures Always(inv, r, [a, b]) && Exec(r, [a, b]) == Do(Do(r, a), b)
  {
    assert [a, b][1..] == [b];
    AlwaysOne(inv, Do(r, a), b);
  }

  /** What always holds during a plan holds wherever it is cut. */
  lemma {:induction false} AlwaysAtCut(inv: Root -> bool, r: Root, ws: seq<Write>, k: nat)
    requires Always(inv, r, ws) && k <= |ws|
    ensures inv(Exec(r, ws[..k]))
    decreases k
  {
    if k > 0 {
      AlwaysAtCut(inv, Do(r, ws[0]), ws[1..], k - 1);
      assert ws[..k][0] == ws[0] && ws[..k][1..] == ws[1..][..k - 1];
    }
  }

  lemma AlwaysCut(inv: Root -> bool, r: Root, p: Plan, k: nat)
    requires Always(inv, r, p.writes)
    ensures inv(Cut(r, p, k)) && inv(After(r, p))
  {
    AlwaysAtCut(inv, r, p.writes, if k < |p.writes| then k else |p.writes|);
    AlwaysAtCut(inv, r, p.writes, |p.writes|);
    assert p.writes[..|p.writes|] == p.writes;
  }

  lemma {:induction false} AlwaysPrefix(inv: Root -> bool, r: Root, ws: seq<Write>, n: nat)
    requires Always(inv, r, ws) && n <= |ws|
    ensures Always(inv, r, ws[..n])
    decreases n
  {
    if n > 0 {
      AlwaysPrefix(inv, Do(r, ws[0]), ws[1..], n - 1);
      assert ws[..n][0] == ws[0] && ws[..n][1..] == ws[1..][..n - 1];
    } else {
      assert ws[..0] == [];
    }
  }

  lemma {:induction false} AlwaysWeaken(strong: Root -> bool, weak: Root -> bool, r: Root, ws: seq<Write>)
    requires Always(strong, r, ws) && forall x :: strong(x) ==> weak(x)
    ensures Always(weak, r, ws)
    decreases |ws|
  {
    if ws != [] {
      AlwaysWeaken(strong, weak, Do(r, ws[0]), ws[1..]);
    }
  }
}
