/** The walk of published releases from one version to another. */
module Chain {
  import opened Bytes
  import opened Ordering
  import opened Semver

  /** A release strictly after one version and up to another. */
  ghost predicate OnTheWay(v: Version, after: Version, to: Version, cmp: Comparison) {
    cmp(v, after) > 0 && cmp(v, to) <= 0
  }

  /** Two published spellings of one precedence, both on the way. */
  ghost predicate Ambiguous(available: seq<string>, after: Version, to: Version, cmp: Comparison) {
    exists u: Version, v: Version ::
      u in available && v in available && u != v
      && OnTheWay(u, after, to, cmp) && OnTheWay(v, after, to, cmp) && cmp(u, v) == 0
  }

  /** What the walk is: every published release on the way, once, oldest first. */
  ghost predicate IsWalk(walk: seq<Version>, available: seq<string>, after: Version, to: Version, cmp: Comparison) {
    && Ascending(walk, cmp)
    && Gathers(walk, available, after, to, cmp)
  }

  ghost predicate Gathers(walk: seq<Version>, available: seq<string>, after: Version, to: Version, cmp: Comparison) {
    forall v: Version :: v in walk <==> v in available && OnTheWay(v, after, to, cmp)
  }

  /** The releases on the way, each once, in the order published. */
  method Collect(available: seq<string>, after: Version, to: Version, cmp: Comparison) returns (walk: seq<Version>)
    ensures Distinct(walk) && Gathers(walk, available, after, to, cmp)
  {
    walk := [];
    var seen: set<string> := {};
    for i := 0 to |available|
      invariant Distinct(walk) && Gathers(walk, available[..i], after, to, cmp)
      invariant forall v: Version :: v in seen <==> v in available[..i]
    {
      var v := available[i];
      assert available[..i + 1] == available[..i] + [v];
      if ValidVersion(v) && v !in seen {
        seen := seen + {v};
        var w: Version := v;
        if cmp(w, after) > 0 && cmp(w, to) <= 0 {
          assert w !in walk;
          walk := walk + [w];
        }
      }
    }
    assert available[..|available|] == available;
  }

  lemma GathersSame(s: seq<Version>, t: seq<Version>, available: seq<string>, after: Version, to: Version, cmp: Comparison)
    requires Gathers(s, available, after, to, cmp) && SameElements(s, t)
    ensures Gathers(t, available, after, to, cmp)
  {
  }

  /** Sorted and without repeats, the walk ascends strictly exactly when the
      repository leaves no doubt about the order. */
  lemma AscendingIsUnambiguous(walk: seq<Version>, available: seq<string>, after: Version, to: Version, cmp: Comparison)
    requires TotalPreorder(cmp) && Sorted(walk, cmp) && Distinct(walk)
    requires Gathers(walk, available, after, to, cmp)
    ensures Ascending(walk, cmp) <==> !Ambiguous(available, after, to, cmp)
  {
    if Ambiguous(available, after, to, cmp) {
      AmbiguityShows(walk, available, after, to, cmp);
    } else {
      forall i, j | 0 <= i < j < |walk|
        ensures cmp(walk[i], walk[j]) < 0
      {
        assert walk[i] in walk && walk[j] in walk;
      }
    }
  }

  lemma AmbiguityShows(walk: seq<Version>, available: seq<string>, after: Version, to: Version, cmp: Comparison)
    requires TotalPreorder(cmp) && Gathers(walk, available, after, to, cmp)
    requires Ambiguous(available, after, to, cmp)
    ensures !Ascending(walk, cmp)
  {
    var u: Version, v: Version :| u in available && v in available && u != v
      && OnTheWay(u, after, to, cmp) && OnTheWay(v, after, to, cmp) && cmp(u, v) == 0;
    assert u in walk && v in walk;
    var i :| 0 <= i < |walk| && walk[i] == u;
    var j :| 0 <= j < |walk| && walk[j] == v;
    Swap(cmp, u, v);
    TieIsNotAscending(walk, i, j, cmp);
  }

  lemma TieIsNotAscending(walk: seq<Version>, i: nat, j: nat, cmp: Comparison)
    requires i < |walk| && j < |walk| && walk[i] != walk[j]
    requires cmp(walk[i], walk[j]) == 0 && cmp(walk[j], walk[i]) == 0
    ensures !Ascending(walk, cmp)
  {
    var a, b := if i < j then i else j, if i < j then j else i;
    assert a < b && cmp(walk[a], walk[b]) == 0;
  }

  /** An ascending walk ends at `to` exactly when `to` is published. */
  lemma LastIsTo(walk: seq<Version>, available: seq<string>, after: Version, to: Version, cmp: Comparison)
    requires TotalPreorder(cmp) && cmp(after, to) < 0
    requires IsWalk(walk, available, after, to, cmp)
    ensures (walk != [] && walk[|walk| - 1] == to) <==> to in available
  {
    if to in available {
      Swap(cmp, to, after);
      Reflexive(cmp, to);
      assert to in walk;
      var i :| 0 <= i < |walk| && walk[i] == to;
      var last := walk[|walk| - 1];
      assert last in walk;
      Swap(cmp, to, last);
    } else if walk != [] {
      assert walk[|walk| - 1] in walk;
    }
  }

  /** The walk under any total preorder. */
  method WalkBetween(available: seq<string>, after: Version, to: Version, cmp: Comparison)
    returns (r: Option<seq<Version>>)
    requires TotalPreorder(cmp)
    ensures r.Some? <==> cmp(after, to) < 0 && to in available && !Ambiguous(available, after, to, cmp)
    ensures r.Some? ==>
              IsWalk(r.value, available, after, to, cmp) && r.value != [] && r.value[|r.value| - 1] == to
  {
    if cmp(after, to) >= 0 {
      return None;
    }
    var found := Collect(available, after, to, cmp);
    var walk := Sort(found, cmp);
    GathersSame(found, walk, available, after, to, cmp);
    AscendingIsUnambiguous(walk, available, after, to, cmp);
    var tie := FindTie(walk, cmp);
    if tie {
      return None;
    }
    LastIsTo(walk, available, after, to, cmp);
    if walk == [] || walk[|walk| - 1] != to {
      return None;
    }
    return Some(walk);
  }

  /** The same walk with its starting point. */
  method WalkFrom(available: seq<string>, from: Version, to: Version, cmp: Comparison)
    returns (r: Option<seq<Version>>)
    requires TotalPreorder(cmp)
    ensures r.Some? <==>
            cmp(from, to) < 0 && to in available && !Ambiguous(available, from, to, cmp) && from in available
    ensures r.Some? ==> r.value != [] && r.value[0] == from && r.value[|r.value| - 1] == to
    ensures r.Some? ==> Ascending(r.value, cmp) && IsWalk(r.value[1..], available, from, to, cmp)
  {
    var walk := WalkBetween(available, from, to, cmp);
    if walk.None? || from !in available {
      return None;
    }
    WithStart(walk.value, available, from, to, cmp);
    return Some([from] + walk.value);
  }

  lemma WithStart(walk: seq<Version>, available: seq<string>, from: Version, to: Version, cmp: Comparison)
    requires TotalPreorder(cmp) && IsWalk(walk, available, from, to, cmp)
    ensures Ascending([from] + walk, cmp) && IsWalk(([from] + walk)[1..], available, from, to, cmp)
  {
    StartsBelow(walk, available, from, to, cmp);
    assert ([from] + walk)[1..] == walk;
  }

  lemma StartsBelow(walk: seq<Version>, available: seq<string>, from: Version, to: Version, cmp: Comparison)
    requires TotalPreorder(cmp) && IsWalk(walk, available, from, to, cmp)
    ensures Ascending([from] + walk, cmp)
  {
    forall i | 0 <= i < |walk|
      ensures cmp(from, walk[i]) < 0
    {
      assert walk[i] in walk;
      Swap(cmp, from, walk[i]);
    }
  }

  /** When there is a walk: two versions, an upgrade, to a published release,
      through releases no two of which tie. */
  ghost predicate Walkable(available: seq<string>, after: string, to: string) {
    && ValidVersion(after) && ValidVersion(to)
    && ORDER(after, to) < 0
    && to in available
    && !Ambiguous(available, after, to, ORDER)
  }

  /** The walk from above `after` to `to`, exactly where there is one. */
  method Between(available: seq<string>, after: string, to: string) returns (r: Option<seq<Version>>)
    ensures r.Some? <==> Walkable(available, after, to)
    ensures r.Some? ==>
              IsWalk(r.value, available, after, to, ORDER) && r.value != [] && r.value[|r.value| - 1] == to
  {
    if !ValidVersion(after) || !ValidVersion(to) {
      return None;
    }
    OrderIsTotalPreorder();
    r := WalkBetween(available, after, to, ORDER);
  }

  /** The walk with its starting point, which must be published too. */
  method ChainFrom(available: seq<string>, from: string, to: string) returns (r: Option<seq<Version>>)
    ensures r.Some? <==> Walkable(available, from, to) && from in available
    ensures r.Some? ==> r.value != [] && r.value[0] == from && r.value[|r.value| - 1] == to
    ensures r.Some? ==> Ascending(r.value, ORDER) && IsWalk(r.value[1..], available, from, to, ORDER)
  {
    if !ValidVersion(from) || !ValidVersion(to) {
      return None;
    }
    OrderIsTotalPreorder();
    r := WalkFrom(available, from, to, ORDER);
  }
}
