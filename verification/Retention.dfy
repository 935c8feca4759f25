/** Which installed versions survive a collection. */
module Retention {
  import opened Bytes
  import opened Ordering
  import opened Semver
  import Install
  import Apply

  const MIN_RETAIN := 2

  function Flip(cmp: Comparison): Comparison {
    (a: Version, b: Version) => cmp(b, a)
  }

  lemma FlipOrders(cmp: Comparison)
    requires TotalPreorder(cmp)
    ensures TotalPreorder(Flip(cmp))
  {
    forall a: Version, b: Version, c: Version
      ensures Orders(Flip(cmp), a, b, c)
    {
      assert Orders(cmp, c, b, a) && Orders(cmp, a, b, c);
    }
  }

  ghost predicate IsOlder(older: seq<Version>, versions: seq<Version>, live: Version, cmp: Comparison) {
    forall v: Version :: v in older <==> v in versions && cmp(v, live) < 0
  }

  /** What a window of n versions keeps: the live one, every newer one, and the
      newest n - 1 older ones, or all of them if there are fewer. Of versions
      that tie with the live one, only the live one itself. */
  ghost predicate Keeps(keep: set<Version>, older: seq<Version>, versions: seq<Version>, live: Version, n: nat, cmp: Comparison)
    requires n >= 1
  {
    && live in keep
    && (forall v: Version :: v in keep && v != live ==> v in versions && cmp(v, live) != 0)
    && (forall v: Version :: v in versions && cmp(v, live) > 0 ==> v in keep)
    && Distinct(older) && IsOlder(older, versions, live, cmp)
    && (var m := if n - 1 < |older| then n - 1 else |older|;
        && (forall i :: 0 <= i < m ==> older[i] in keep)
        && (forall i :: m <= i < |older| ==> older[i] !in keep)
        && (forall i, j :: 0 <= i < m <= j < |older| ==> cmp(older[j], older[i]) <= 0))
  }

  /** The versions strictly older and strictly newer than the live one. */
  method Split(versions: seq<Version>, live: Version, cmp: Comparison) returns (newer: set<Version>, older: seq<Version>)
    requires Distinct(versions)
    ensures forall v: Version :: v in newer <==> v in versions && cmp(v, live) > 0
    ensures Distinct(older) && IsOlder(older, versions, live, cmp)
  {
    newer, older := {}, [];
    for i := 0 to |versions|
      invariant forall v: Version :: v in newer <==> v in versions[..i] && cmp(v, live) > 0
      invariant Distinct(older) && IsOlder(older, versions[..i], live, cmp)
    {
      var v := versions[i];
      assert versions[..i + 1] == versions[..i] + [v];
      assert v !in versions[..i];
      if cmp(v, live) > 0 {
        newer := newer + {v};
      } else if cmp(v, live) < 0 {
        older := older + [v];
      }
    }
    assert versions[..|versions|] == versions;
  }

  /** `order` is a witness: the strictly older versions, newest first. */
  method RetainedBy(versions: seq<Version>, live: Version, retain: nat, cmp: Comparison)
    returns (keep: set<Version>, order: seq<Version>)
    requires TotalPreorder(cmp) && Distinct(versions) && retain >= 1
    ensures Keeps(keep, order, versions, live, retain, cmp)
  {
    var newer, older := Split(versions, live, cmp);
    FlipOrders(cmp);
    order := Sort(older, Flip(cmp));
    assert IsOlder(order, versions, live, cmp);
    Reflexive(cmp, live);
    keep := {live} + newer;
    var m := if retain - 1 < |order| then retain - 1 else |order|;
    assert forall j :: 0 <= j < |order| ==> order[j] in order && order[j] !in keep;
    for i := 0 to m
      invariant live in keep
      invariant forall v: Version :: v in keep && v != live ==> v in versions && cmp(v, live) != 0
      invariant forall v: Version :: v in newer ==> v in keep
      invariant forall j :: 0 <= j < i ==> order[j] in keep
      invariant forall j :: i <= j < |order| ==> order[j] !in keep
    {
      assert order[i] in order;
      keep := keep + {order[i]};
    }
    forall i, j | 0 <= i < m <= j < |order|
      ensures cmp(order[j], order[i]) <= 0
    {
      assert Flip(cmp)(order[i], order[j]) <= 0;
    }
  }

  /** The versions a collection may not remove, by version precedence; a window
      that would leave no version to return to is refused. */
  method Retained(versions: seq<Version>, live: Version, retain: int)
    returns (kept: Option<set<Version>>, order: seq<Version>)
    requires Distinct(versions)
    ensures kept.None? <==> retain < 2
    ensures kept.Some? ==> Keeps(kept.value, order, versions, live, retain, ORDER)
  {
    if retain < MIN_RETAIN {
      return None, [];
    }
    OrderIsTotalPreorder();
    var keep;
    keep, order := RetainedBy(versions, live, retain, ORDER);
    return Some(keep), order;
  }

  /** A version to return to survives whenever there was one. */
  lemma RollbackTargetSurvives(keep: set<Version>, older: seq<Version>, versions: seq<Version>, live: Version, n: nat,
                               cmp: Comparison, v: Version)
    requires n >= 2 && Keeps(keep, older, versions, live, n, cmp)
    requires v in versions && cmp(v, live) < 0
    ensures exists u: Version :: u in keep && u in versions && cmp(u, live) < 0
  {
    assert v in older;
    assert older[0] in older;
  }

  /** And nothing older that was removed ranks above anything older that the
      window kept. */
  lemma RemovedRankLower(keep: set<Version>, older: seq<Version>, versions: seq<Version>, live: Version, n: nat,
                         cmp: Comparison, kept: Version, removed: Version)
    requires n >= 1 && Keeps(keep, older, versions, live, n, cmp)
    requires kept in versions && removed in versions && cmp(kept, live) < 0 && cmp(removed, live) < 0
    requires kept in keep && removed !in keep
    ensures cmp(removed, kept) <= 0
  {
    assert kept in older && removed in older;
    var i :| 0 <= i < |older| && older[i] == kept;
    var j :| 0 <= j < |older| && older[j] == removed;
  }

  // A collection with such a window.

  /** The collection lists the directories and keeps what a window of n keeps. */
  ghost predicate Proper(r: Install.Root, versions: seq<Version>, live: Version, keep: set<Version>, older: seq<Version>,
                         n: nat, cmp: Comparison)
  {
    && r.current == live && live in r.dirs
    && (forall v: Version :: v in versions <==> v in r.dirs)
    && n >= 2 && Keeps(keep, older, versions, live, n, cmp)
  }

  /** Every version that is live, newer, pinned by a probation or within the window
      is there as it was. */
  ghost predicate Unharmed(r: Install.Root, r': Install.Root, live: Version, keep: set<Version>, cmp: Comparison) {
    forall v: Version :: v in r.dirs && (v == live || cmp(v, live) > 0 || v in Apply.Pins(r) || v in keep) ==>
      v in r'.dirs && r'.dirs[v] == r.dirs[v]
  }

  ghost predicate HasTarget(r: Install.Root, live: Version, cmp: Comparison) {
    exists v: Version :: v in r.dirs && cmp(v, live) < 0
  }

  /** After a collection every version it is to keep is unharmed, and there is a
      strictly older one to return to whenever there was one. */
  lemma CollectionKeeps(r: Install.Root, versions: seq<Version>, live: Version, keep: set<Version>, older: seq<Version>,
                        n: nat, cmp: Comparison, stuck: set<Install.Version>)
    requires Proper(r, versions, live, keep, older, n, cmp)
    ensures var r' := Install.After(r, Apply.Collect(r, Apply.Sweep(keep, versions, stuck)));
            Unharmed(r, r', live, keep, cmp) && (HasTarget(r, live, cmp) <==> HasTarget(r', live, cmp))
  {
    var s := Apply.Sweep(keep, versions, stuck);
    var r' := Install.After(r, Apply.Collect(r, s));
    assert r.current != "";
    forall v: Version
      ensures v in r'.dirs ==> v in r.dirs
      ensures v in r.dirs && (v == live || cmp(v, live) > 0 || v in Apply.Pins(r) || v in keep) ==>
                v in r'.dirs && r'.dirs[v] == r.dirs[v]
    {
      assert cmp(v, live) > 0 && v in versions ==> v in keep;
      Apply.CollectResult(r, s, v);
    }
    if HasTarget(r, live, cmp) {
      var v: Version :| v in r.dirs && cmp(v, live) < 0;
      RollbackTargetSurvives(keep, older, versions, live, n, cmp, v);
      var u: Version :| u in keep && u in versions && cmp(u, live) < 0;
      assert u in r.dirs && u in r'.dirs;
    }
  }

  /** And of the strictly older versions, every one it removed ranks no higher than
      every one that is kept by the window. */
  lemma CollectionRemovesOldest(r: Install.Root, versions: seq<Version>, live: Version, keep: set<Version>,
                                older: seq<Version>, n: nat, cmp: Comparison, stuck: set<Install.Version>,
                                kept: Version, removed: Version)
    requires Proper(r, versions, live, keep, older, n, cmp)
    requires kept in keep && kept in r.dirs && removed in r.dirs && cmp(kept, live) < 0 && cmp(removed, live) < 0
    requires removed !in Install.After(r, Apply.Collect(r, Apply.Sweep(keep, versions, stuck))).dirs
    ensures cmp(removed, kept) <= 0 && removed !in Apply.Pins(r)
  {
    var s := Apply.Sweep(keep, versions, stuck);
    assert r.current != "";
    Apply.CollectResult(r, s, removed);
    RemovedRankLower(keep, older, versions, live, n, cmp, kept, removed);
  }

  /** A version that ties with the live one under another spelling survives a
      collection if and only if it is pinned or will not go. */
  lemma TieIsCollected(r: Install.Root, versions: seq<Version>, live: Version, keep: set<Version>, older: seq<Version>,
                       n: nat, cmp: Comparison, stuck: set<Install.Version>, v: Version)
    requires Proper(r, versions, live, keep, older, n, cmp) && v in r.dirs && v != live && cmp(v, live) == 0
    ensures v in Install.After(r, Apply.Collect(r, Apply.Sweep(keep, versions, stuck))).dirs
            <==> v in Apply.Pins(r) || v in stuck
  {
    assert r.current != "";
    Apply.CollectResult(r, Apply.Sweep(keep, versions, stuck), v);
  }
}
