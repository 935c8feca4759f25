/** The transaction journal: which histories may be written, and which are
    believed when read back. */
module Journal {
  import opened Bytes

  /** The journal states. Names are versions' and applications' own spelling; an
      empty `from` is a first install. */
  datatype State =
    | Begin | Staged | Migrated | Swapped | Committed | RolledBack
    | Deferred
    | Uninstalling

  datatype Record = Record(state: State, name: string, from: string, to: string)

  const MAX_RECORDS := 32

  /** The transition table. */
  function Allowed(s: State): set<State> {
    match s
    case Begin => {Staged, RolledBack}
    case Staged => {Migrated, RolledBack, Deferred}
    case Migrated => {Swapped, RolledBack}
    case Swapped => {Committed, RolledBack}
    case Committed => {Begin, Uninstalling}
    case Deferred => {Migrated, RolledBack, Begin, Uninstalling}
    case RolledBack => {Begin, Uninstalling}
    case Uninstalling => {}
  }

  predicate SameTransaction(a: Record, b: Record) {
    a.name == b.name && a.from == b.from && a.to == b.to
  }

  /** Whether next may follow prev: a listed transition that keeps the identity
      of the transaction unless it opens a new one. */
  predicate MayFollow(prev: Record, next: Record) {
    next.state in Allowed(prev.state) && (next.state == Begin || SameTransaction(prev, next))
  }

  predicate Opens(r: Record) {
    r.state == Begin || r.state == Uninstalling
  }

  ghost predicate Linked(h: seq<Record>) {
    forall i :: 0 < i < |h| ==> MayFollow(h[i - 1], h[i])
  }

  /** The stored histories that are believed. */
  ghost predicate Accepted(h: seq<Record>) {
    0 < |h| <= 32 && Opens(h[0]) && Linked(h)
  }

  method Parse(h: seq<Record>) returns (ok: bool)
    ensures ok <==> Accepted(h)
  {
    if |h| == 0 || |h| > MAX_RECORDS || !Opens(h[0]) {
      return false;
    }
    for i := 1 to |h|
      invariant forall j :: 0 < j < i ==> MayFollow(h[j - 1], h[j])
    {
      if !MayFollow(h[i - 1], h[i]) {
        return false;
      }
    }
    return true;
  }

  function Last(h: seq<Record>): Record
    requires h != []
  {
    h[|h| - 1]
  }

  /** The history with one more record, or nothing if the record is refused. BEGIN
      discards what came before it. */
  function Append(h: seq<Record>, r: Record): (h': Option<seq<Record>>)
  {
    if r.to == "" || r.name == "" then None
    else if h == [] then (if Opens(r) then Some([r]) else None)
    else if !MayFollow(Last(h), r) then None
    else if r.state == Begin then Some([r])
    else if |h| + 1 > MAX_RECORDS then None
    else Some(h + [r])
  }

  /** How far along a state is. Every transition but BEGIN goes forwards. */
  function Rank(s: State): (n: nat)
    ensures n <= 6
  {
    match s
    case Begin => 0
    case Staged => 1
    case Deferred => 2
    case Migrated => 3
    case Swapped => 4
    case Committed => 5
    case RolledBack => 5
    case Uninstalling => 6
  }

  /** A history grown by appends: believed, and strictly advancing. */
  ghost predicate Grown(h: seq<Record>) {
    h == [] || (Accepted(h) && |h| <= Rank(Last(h).state) + 1)
  }

  lemma AppendKeepsGrown(h: seq<Record>, r: Record)
    requires Grown(h) && Append(h, r).Some?
    ensures Grown(Append(h, r).value) && Append(h, r).value != []
    ensures Last(Append(h, r).value) == r
  {
    if h != [] && r.state != Begin {
      var next := h + [r];
      assert Rank(Last(h).state) < Rank(r.state);
      forall i | 0 < i < |next|
        ensures MayFollow(next[i - 1], next[i])
      {
        if i < |h| {
          assert MayFollow(h[i - 1], h[i]);
        }
      }
    }
  }

  /** An allowed step within a transaction is never refused. */
  lemma GrownAppend(h: seq<Record>, r: Record)
    requires Grown(h) && h != [] && MayFollow(Last(h), r) && r.state != Begin
    requires r.to != "" && r.name != ""
    ensures Append(h, r) == Some(h + [r]) && Grown(h + [r]) && Last(h + [r]) == r
  {
    AppendKeepsGrown(h, r);
  }

  /** The history a run of appends leaves behind, refused ones leaving it as it
      was. */
  function Replay(rs: seq<Record>): seq<Record> {
    if rs == [] then []
    else
      var h := Replay(rs[..|rs| - 1]);
      match Append(h, rs[|rs| - 1])
      case None => h
      case Some(h') => h'
  }

  /** Whatever is appended to an empty journal, in any order and however often
      refused, the file that results is believed when read back and holds at
      most seven records. */
  lemma {:induction false} GrownHistoriesAreShort(rs: seq<Record>)
    ensures Grown(Replay(rs))
    ensures |Replay(rs)| <= 7
    ensures Replay(rs) != [] ==> Accepted(Replay(rs))
  {
    if rs != [] {
      var h, r := Replay(rs[..|rs| - 1]), rs[|rs| - 1];
      GrownHistoriesAreShort(rs[..|rs| - 1]);
      if Append(h, r).Some? {
        AppendKeepsGrown(h, r);
      }
    }
  }

  // The histories there are.

  function States(h: seq<Record>): seq<State> {
    seq(|h|, i requires 0 <= i < |h| => h[i].state)
  }

  const STRAIGHT := [Begin, Staged, Migrated, Swapped, Committed]
  const DEFERRED := [Begin, Staged, Deferred, Migrated, Swapped, Committed]

  /** On the way to a commit, straight or by way of a deferral. */
  predicate Straight(s: seq<State>) {
    s != [] && (s <= STRAIGHT || s <= DEFERRED)
  }

  /** Taken back from anywhere before the commit. */
  predicate TakenBack(s: seq<State>) {
    |s| > 1 && s[|s| - 1] == RolledBack && Straight(s[..|s| - 1]) && s[|s| - 2] != Committed
  }

  /** What a journal goes through: a transaction, and at the end of one that rests,
      or with none at all, an uninstall. */
  predicate Course(s: seq<State>) {
    || Straight(s) || TakenBack(s)
    || s == [Uninstalling]
    || (&& |s| > 1 && s[|s| - 1] == Uninstalling && s[|s| - 2] in {Committed, Deferred, RolledBack}
        && (Straight(s[..|s| - 1]) || TakenBack(s[..|s| - 1])))
  }

  lemma StraightNext(s: seq<State>, x: State)
    requires Straight(s)
    ensures x != Begin && x in Allowed(s[|s| - 1]) <==> Course(s + [x])
  {
    var t, n := s + [x], |s| - 1;
    assert t[..|t| - 1] == s;
    PrefixNext(s, x, STRAIGHT);
    PrefixNext(s, x, DEFERRED);
    assert s <= STRAIGHT ==> s[n] == STRAIGHT[n];
    assert s <= DEFERRED ==> s[n] == DEFERRED[n];
    assert !TakenBack(s);
  }

  lemma PrefixNext(s: seq<State>, x: State, all: seq<State>)
    ensures s + [x] <= all <==> s <= all && |s| < |all| && x == all[|s|]
  {
    if s <= all && |s| < |all| && x == all[|s|] {
      assert all[..|s| + 1] == all[..|s|] + [all[|s|]];
    }
  }

  /** A course goes on as the table of transitions says, and not otherwise. */
  lemma CourseNext(s: seq<State>, x: State)
    requires Course(s)
    ensures x != Begin && x in Allowed(s[|s| - 1]) <==> Course(s + [x])
  {
    var t := s + [x];
    assert t[..|t| - 1] == s;
    if Straight(s) {
      StraightNext(s, x);
    } else {
      NotStraight(s, x);
    }
  }

  lemma NotStraight(s: seq<State>, x: State)
    requires s != [] && s[|s| - 1] in {RolledBack, Uninstalling}
    ensures !Straight(s) && !Straight(s + [x])
  {
    var n := |s| - 1;
    assert (s + [x])[n] == s[n];
  }

  /** Whatever was appended before, a record is accepted if and only if it names a
      version and an application, and either opens a transaction where none is
      under way, or goes on with the same one on its course. */
  lemma AppendExactly(rs: seq<Record>, r: Record)
    ensures Append(Replay(rs), r).Some?
            <==> (&& r.to != "" && r.name != ""
                  && (var h := Replay(rs);
                      if h == [] then r.state == Begin || r.state == Uninstalling
                      else if r.state == Begin then Last(h).state in {Committed, Deferred, RolledBack}
                      else && r.name == Last(h).name && r.from == Last(h).from && r.to == Last(h).to
                           && Course(States(h) + [r.state])))
  {
    ReplayIsCourse(rs);
    GrownHistoriesAreShort(rs);
    if Replay(rs) != [] {
      CourseNext(States(Replay(rs)), r.state);
    }
  }

  lemma {:induction false} ReplayIsCourse(rs: seq<Record>)
    ensures Replay(rs) != [] ==> Course(States(Replay(rs)))
    decreases |rs|
  {
    if rs != [] {
      ReplayIsCourse(rs[..|rs| - 1]);
      AppendIsCourse(Replay(rs[..|rs| - 1]), rs[|rs| - 1]);
    }
  }

  lemma AppendIsCourse(h: seq<Record>, r: Record)
    requires h != [] ==> Course(States(h))
    ensures Append(h, r).Some? ==> Append(h, r).value != [] && Course(States(Append(h, r).value))
  {
    if Append(h, r).Some? && h != [] && r.state != Begin {
      CourseNext(States(h), r.state);
      assert States(h + [r]) == States(h) + [r.state];
    } else if Append(h, r).Some? {
      assert States([r]) == [r.state];
      assert [Begin] <= STRAIGHT;
    }
  }

  /** So the ceiling never refuses an append: whether one is accepted depends on
      the transition alone. */
  lemma CeilingNeverRefuses(rs: seq<Record>, r: Record)
    requires Replay(rs) != [] && r.to != "" && r.name != ""
    ensures Append(Replay(rs), r).Some? <==> MayFollow(Last(Replay(rs)), r)
  {
    GrownHistoriesAreShort(rs);
  }

  /** Seven is reached: a deferred update that commits and is then uninstalled. */
  lemma SevenRecordsHappen()
    ensures exists rs :: |Replay(rs)| == 7
  {
    var r := Record(Begin, "app", "1.0.0", "1.1.0");
    assert Replay([r]) == [r] by {
      assert [r][..0] == [];
    }
    var h := Extend([r], Staged);
    h := Extend(h, Deferred);
    h := Extend(h, Migrated);
    h := Extend(h, Swapped);
    h := Extend(h, Committed);
    h := Extend(h, Uninstalling);
    assert |Replay(h)| == 7;
  }

  lemma Extend(h: seq<Record>, s: State) returns (next: seq<Record>)
    requires Replay(h) == h && 0 < |h| < MAX_RECORDS && Last(h).to != "" && Last(h).name != ""
    requires s in Allowed(Last(h).state) && s != Begin
    ensures Replay(next) == next && |next| == |h| + 1 && Last(next) == Last(h).(state := s)
  {
    next := h + [Last(h).(state := s)];
    assert next[..|h|] == h;
  }

  /** The journal of one install root: the file on disk and the records this
      process believes are in it. */
  class Log {
    var stored: seq<Record>
    var records: seq<Record>

    ghost predicate Valid()
      reads this
    {
      records == stored
    }

    /** Opens the journal. A stored history that is not believed is an error,
        never an empty journal. */
    static method Open(stored: seq<Record>) returns (log: Option<Log>)
      ensures log.Some? <==> stored == [] || Accepted(stored)
      ensures log.Some? ==> fresh(log.value) && log.value.Valid() && log.value.stored == stored
    {
      if stored != [] {
        var ok := Parse(stored);
        if !ok {
          return None;
        }
      }
      var l := new Log(stored);
      return Some(l);
    }

    constructor (stored: seq<Record>)
      ensures Valid() && this.stored == stored
    {
      this.stored := stored;
      this.records := stored;
    }

    /** Appends r; `durable` says whether the file took it. Memory follows the file
        and never runs ahead of it. */
    method Write(r: Record, durable: bool) returns (ok: bool)
      requires Valid()
      modifies this
      ensures Valid()
      ensures ok <==> durable && Append(old(stored), r).Some?
      ensures stored == if ok then Append(old(stored), r).value else old(stored)
    {
      var next := Append(records, r);
      if next.None? || !durable {
        return false;
      }
      stored := next.value;
      records := next.value;
      return true;
    }
  }
}
