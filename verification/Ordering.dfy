/** Sorting by a comparison that is a total preorder: two elements may tie
    without being the same. */
module Ordering {

  /** The laws of a preorder on three elements: swapping negates, order chains,
      and a chain that ties end to end ties at every link. */
  ghost predicate Orders<T>(cmp: (T, T) -> int, a: T, b: T, c: T) {
    && cmp(a, b) == -cmp(b, a)
    && (cmp(a, b) <= 0 && cmp(b, c) <= 0 ==> cmp(a, c) <= 0)
    && (cmp(a, b) <= 0 && cmp(b, c) <= 0 && cmp(a, c) == 0 ==> cmp(a, b) == 0 && cmp(b, c) == 0)
  }

  ghost predicate TotalPreorder<T(!new)>(cmp: (T, T) -> int) {
    forall a, b, c {:trigger Orders(cmp, a, b, c)} :: Orders(cmp, a, b, c)
  }

  lemma Swap<T(!new)>(cmp: (T, T) -> int, a: T, b: T)
    requires TotalPreorder(cmp)
    ensures cmp(a, b) == -cmp(b, a)
  {
    assert Orders(cmp, a, b, b);
  }

  lemma Reflexive<T(!new)>(cmp: (T, T) -> int, a: T)
    requires TotalPreorder(cmp)
    ensures cmp(a, a) == 0
  {
    Swap(cmp, a, a);
  }

  lemma Link<T(!new)>(cmp: (T, T) -> int, a: T, b: T, c: T)
    requires TotalPreorder(cmp) && cmp(a, b) <= 0 && cmp(b, c) <= 0
    ensures cmp(a, c) <= 0
    ensures cmp(a, b) < 0 || cmp(b, c) < 0 ==> cmp(a, c) < 0
  {
    assert Orders(cmp, a, b, c);
  }

  ghost predicate Sorted<T>(s: seq<T>, cmp: (T, T) -> int) {
    forall i, j :: 0 <= i < j < |s| ==> cmp(s[i], s[j]) <= 0
  }

  ghost predicate Ascending<T>(s: seq<T>, cmp: (T, T) -> int) {
    forall i, j :: 0 <= i < j < |s| ==> cmp(s[i], s[j]) < 0
  }

  ghost predicate Distinct<T>(s: seq<T>) {
    forall i, j :: 0 <= i < j < |s| ==> s[i] != s[j]
  }

  ghost predicate SameElements<T(!new)>(s: seq<T>, t: seq<T>) {
    forall v :: v in s <==> v in t
  }

  function InsertAt<T>(s: seq<T>, k: nat, v: T): (t: seq<T>)
    requires k <= |s|
    ensures |t| == |s| + 1
    ensures forall i :: 0 <= i < |t| ==> t[i] == if i < k then s[i] else if i == k then v else s[i - 1]
  {
    s[..k] + [v] + s[k..]
  }

  lemma InsertSorted<T(!new)>(s: seq<T>, v: T, k: nat, cmp: (T, T) -> int)
    requires Sorted(s, cmp) && k <= |s|
    requires forall i :: 0 <= i < k ==> cmp(s[i], v) <= 0
    requires forall i :: k <= i < |s| ==> cmp(v, s[i]) <= 0
    ensures Sorted(InsertAt(s, k, v), cmp)
  {
  }

  lemma InsertDistinct<T>(s: seq<T>, v: T, k: nat)
    requires Distinct(s) && v !in s && k <= |s|
    ensures Distinct(InsertAt(s, k, v))
  {
  }

  lemma InsertElements<T(!new)>(s: seq<T>, v: T, k: nat)
    requires k <= |s|
    ensures forall u :: u in InsertAt(s, k, v) <==> u in s || u == v
  {
    var t := InsertAt(s, k, v);
    forall u
      ensures u in t <==> u in s || u == v
    {
      if u in s {
        var i :| 0 <= i < |s| && s[i] == u;
        assert t[if i < k then i else i + 1] == u;
      }
      if u == v {
        assert t[k] == u;
      }
    }
  }

  /** Where v goes in a sorted list: before the first that ranks above it. */
  method PlaceOf<T(!new)>(s: seq<T>, v: T, cmp: (T, T) -> int) returns (k: nat)
    requires TotalPreorder(cmp) && Sorted(s, cmp)
    ensures k <= |s|
    ensures forall i :: 0 <= i < k ==> cmp(s[i], v) <= 0
    ensures forall i :: k <= i < |s| ==> cmp(v, s[i]) <= 0
  {
    k := 0;
    while k < |s| && cmp(s[k], v) <= 0
      invariant k <= |s|
      invariant forall i :: 0 <= i < k ==> cmp(s[i], v) <= 0
    {
      k := k + 1;
    }
    forall i | k <= i < |s|
      ensures cmp(v, s[i]) <= 0
    {
      Swap(cmp, v, s[k]);
      if i > k {
        Link(cmp, v, s[k], s[i]);
      }
    }
  }

  /** A stable insertion sort. */
  method Sort<T(!new, ==)>(s: seq<T>, cmp: (T, T) -> int) returns (t: seq<T>)
    requires TotalPreorder(cmp) && Distinct(s)
    ensures Sorted(t, cmp) && Distinct(t) && SameElements(s, t)
    ensures |t| == |s|
  {
    t := [];
    for i := 0 to |s|
      invariant Sorted(t, cmp) && Distinct(t) && SameElements(s[..i], t) && |t| == i
    {
      var k := PlaceOf(t, s[i], cmp);
      InsertSorted(t, s[i], k, cmp);
      assert s[i] !in s[..i];
      InsertDistinct(t, s[i], k);
      InsertElements(t, s[i], k);
      assert s[..i + 1] == s[..i] + [s[i]];
      t := InsertAt(t, k, s[i]);
    }
    assert s[..|s|] == s;
  }

  /** Looks for two neighbours that tie; in a sorted list, that is any two. */
  method FindTie<T(!new)>(s: seq<T>, cmp: (T, T) -> int) returns (tie: bool)
    requires TotalPreorder(cmp) && Sorted(s, cmp)
    ensures !tie <==> Ascending(s, cmp)
  {
    var i := 1;
    while i < |s|
      invariant 1 <= i
      invariant forall j, k :: 0 <= j < k < |s| && k < i ==> cmp(s[j], s[k]) < 0
    {
      if cmp(s[i - 1], s[i]) == 0 {
        return true;
      }
      forall j | 0 <= j < i
        ensures cmp(s[j], s[i]) < 0
      {
        if j < i - 1 {
          Link(cmp, s[j], s[i - 1], s[i]);
        }
      }
      i := i + 1;
    }
    return false;
  }
}
