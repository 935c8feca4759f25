/** The cheapest chain of patches across the releases a client missed. */
module Route {
  import opened Bytes

  const INFINITE := MAX_INT64
  const TARGET_CEILING := 0x8000_0000 // 2 GiB, the default ceiling on one target
  const MAX_WALK := 32 // releases a walk may have

  /** The two questions asked of signed metadata: what a patch from one payload to
      another would be called, and how long a target is. */
  datatype Repository = Repository(patchPath: (string, string) -> Option<string>, length: string -> Option<int>)

  /** No length beyond the ceiling is ever answered. */
  ghost predicate Bounded(repo: Repository, ceiling: nat) {
    forall t: string :: repo.length(t).Some? ==> repo.length(t).value <= ceiling
  }

  datatype Hop = Hop(patch: string, to: string)

  /** The cost of going from payload i to payload j directly: the length of the
      patch between them, if it is published and not empty. */
  function Edge(repo: Repository, lineage: seq<string>, i: nat, j: nat): (r: Option<nat>)
    requires i < |lineage| && j < |lineage|
    ensures r.Some? <==>
            (&& repo.patchPath(lineage[i], lineage[j]).Some?
             && repo.length(repo.patchPath(lineage[i], lineage[j]).value).Some?
             && repo.length(repo.patchPath(lineage[i], lineage[j]).value).value > 0)
    ensures r.Some? ==> r.value == repo.length(repo.patchPath(lineage[i], lineage[j]).value).value
  {
    match repo.patchPath(lineage[i], lineage[j])
    case None => None
    case Some(patch) =>
      match repo.length(patch)
      case None => None
      case Some(n) => if n <= 0 then None else Some(n)
  }

  /** A way from payload 0 to payload |lineage|-1 or short of it: forwards only,
      along published patches. */
  ghost predicate IsPath(repo: Repository, lineage: seq<string>, p: seq<nat>) {
    && p != [] && p[0] == 0
    && (forall k: nat :: k < |p| ==> p[k] < |lineage|)
    && (forall k: nat :: k + 1 < |p| ==> Leg(repo, lineage, p, k))
  }

  ghost predicate Leg(repo: Repository, lineage: seq<string>, p: seq<nat>, k: nat)
    requires k + 1 < |p| && p[k] < |lineage| && p[k + 1] < |lineage|
  {
    p[k] < p[k + 1] && Edge(repo, lineage, p[k], p[k + 1]).Some?
  }

  ghost function End(p: seq<nat>): nat
    requires p != []
  {
    p[|p| - 1]
  }

  ghost function CostOf(repo: Repository, lineage: seq<string>, p: seq<nat>): nat
    requires IsPath(repo, lineage, p)
    decreases |p|
  {
    if |p| == 1 then 0
    else
      PathFront(repo, lineage, p);
      assert Leg(repo, lineage, p, |p| - 2);
      CostOf(repo, lineage, p[..|p| - 1]) + Edge(repo, lineage, p[|p| - 2], p[|p| - 1]).value
  }

  lemma PathFront(repo: Repository, lineage: seq<string>, p: seq<nat>)
    requires IsPath(repo, lineage, p) && |p| > 1
    ensures IsPath(repo, lineage, p[..|p| - 1])
  {
    var q := p[..|p| - 1];
    forall k: nat | k + 1 < |q|
      ensures Leg(repo, lineage, q, k)
    {
      assert Leg(repo, lineage, p, k);
    }
  }

  lemma PathExtend(repo: Repository, lineage: seq<string>, p: seq<nat>, j: nat)
    requires IsPath(repo, lineage, p) && End(p) < j < |lineage| && Edge(repo, lineage, End(p), j).Some?
    ensures IsPath(repo, lineage, p + [j])
    ensures CostOf(repo, lineage, p + [j]) == CostOf(repo, lineage, p) + Edge(repo, lineage, End(p), j).value
  {
    var q := p + [j];
    forall k: nat | k + 1 < |q|
      ensures Leg(repo, lineage, q, k)
    {
      if k + 1 < |p| {
        assert Leg(repo, lineage, p, k);
      }
    }
    assert q[..|q| - 1] == p;
  }

  // The least cost of each payload, as a recurrence.

  function Min(a: Option<nat>, b: Option<nat>): Option<nat> {
    match (a, b)
    case (None, _) => b
    case (_, None) => a
    case (Some(x), Some(y)) => if y < x then b else a
  }

  function Plus(a: Option<nat>, b: Option<nat>): Option<nat> {
    if a.None? || b.None? then None else Some(a.value + b.value)
  }

  function Best(repo: Repository, lineage: seq<string>, j: nat): Option<nat>
    requires j < |lineage|
    decreases j, j + 1
  {
    if j == 0 then Some(0) else BestVia(repo, lineage, j, j)
  }

  /** The least cost of reaching j with the last stop before k. */
  function BestVia(repo: Repository, lineage: seq<string>, j: nat, k: nat): Option<nat>
    requires k <= j < |lineage|
    decreases j, k
  {
    if k == 0 then None
    else Min(BestVia(repo, lineage, j, k - 1),
             Plus(Best(repo, lineage, k - 1), Edge(repo, lineage, k - 1, j)))
  }

  lemma {:induction false} BestViaLeast(repo: Repository, lineage: seq<string>, j: nat, k: nat, i: nat)
    requires i < k <= j < |lineage|
    requires Best(repo, lineage, i).Some? && Edge(repo, lineage, i, j).Some?
    ensures BestVia(repo, lineage, j, k).Some?
    ensures BestVia(repo, lineage, j, k).value <= Best(repo, lineage, i).value + Edge(repo, lineage, i, j).value
  {
    if i < k - 1 {
      BestViaLeast(repo, lineage, j, k - 1, i);
    }
  }

  /** No path is cheaper than the recurrence says. */
  lemma {:induction false} BestIsLeast(repo: Repository, lineage: seq<string>, p: seq<nat>)
    requires IsPath(repo, lineage, p)
    ensures Best(repo, lineage, End(p)).Some?
    ensures Best(repo, lineage, End(p)).value <= CostOf(repo, lineage, p)
    decreases |p|
  {
    if |p| > 1 {
      var q, j := p[..|p| - 1], End(p);
      PathFront(repo, lineage, p);
      BestIsLeast(repo, lineage, q);
      assert Leg(repo, lineage, p, |p| - 2);
      BestViaLeast(repo, lineage, j, j, End(q));
    }
  }

  // The costs as they are computed, in signed 64-bit arithmetic.

  /** What stop i offers payload j. */
  function Offer(repo: Repository, lineage: seq<string>, i: nat, j: nat): int
    requires i < j < |lineage|
    decreases j, 0
  {
    var size := Edge(repo, lineage, i, j);
    if Cost(repo, lineage, i) == INFINITE || size.None? then INFINITE
    else WrapInt64(Cost(repo, lineage, i) + size.value)
  }

  function Cost(repo: Repository, lineage: seq<string>, j: nat): (c: int)
    requires j < |lineage|
    ensures c <= INFINITE
    decreases j, j + 1
  {
    if j == 0 then 0 else CostVia(repo, lineage, j, j)
  }

  /** The least offer to j of the stops before k. */
  function CostVia(repo: Repository, lineage: seq<string>, j: nat, k: nat): (c: int)
    requires k <= j < |lineage|
    ensures c <= INFINITE
    decreases j, k
  {
    if k == 0 then INFINITE
    else
      var c, offer := CostVia(repo, lineage, j, k - 1), Offer(repo, lineage, k - 1, j);
      if offer < c then offer else c
  }

  /** No sum leaves the signed range, and no least cost is the marker for "not
      reached". */
  ghost predicate Fits(repo: Repository, lineage: seq<string>) {
    && (forall i: nat, j: nat :: i < j < |lineage| ==> Within(repo, lineage, i, j))
    && (forall j: nat :: j < |lineage| ==> Finite(Best(repo, lineage, j)))
  }

  ghost predicate Within(repo: Repository, lineage: seq<string>, i: nat, j: nat)
    requires i < j < |lineage|
  {
    Best(repo, lineage, i).Some? && Edge(repo, lineage, i, j).Some? ==>
      Best(repo, lineage, i).value + Edge(repo, lineage, i, j).value <= MAX_INT64
  }

  ghost predicate Finite(b: Option<nat>) {
    b.Some? ==> b.value < INFINITE
  }

  /** The recorded cost is the least cost. */
  ghost predicate Right(repo: Repository, lineage: seq<string>, j: nat)
    requires j < |lineage|
  {
    Finite(Best(repo, lineage, j)) && Marked(Cost(repo, lineage, j), Best(repo, lineage, j))
  }

  ghost predicate Marked(c: int, b: Option<nat>) {
    c == if b.None? then INFINITE else b.value
  }

  lemma {:induction false} CostIsBest(repo: Repository, lineage: seq<string>, j: nat)
    requires Fits(repo, lineage) && j < |lineage|
    ensures Right(repo, lineage, j)
    decreases j, j + 1
  {
    if j > 0 {
      CostViaIsBest(repo, lineage, j, j);
    }
  }

  lemma {:induction false} CostViaIsBest(repo: Repository, lineage: seq<string>, j: nat, k: nat)
    requires Fits(repo, lineage) && k <= j < |lineage|
    ensures BestVia(repo, lineage, j, k).Some? ==> BestVia(repo, lineage, j, k).value <= INFINITE
    ensures Marked(CostVia(repo, lineage, j, k), BestVia(repo, lineage, j, k))
    decreases j, k
  {
    if k > 0 {
      CostViaIsBest(repo, lineage, j, k - 1);
      CostIsBest(repo, lineage, k - 1);
      assert Within(repo, lineage, k - 1, j);
      var size := Edge(repo, lineage, k - 1, j);
      if Best(repo, lineage, k - 1).Some? && size.Some? {
        WrapInt64IsIdentity(Cost(repo, lineage, k - 1) + size.value);
      }
    }
  }

  lemma {:induction false} OfferBounds(repo: Repository, lineage: seq<string>, i: nat, j: nat, k: nat)
    requires i < k <= j < |lineage|
    ensures CostVia(repo, lineage, j, k) <= Offer(repo, lineage, i, j)
  {
    if i < k - 1 {
      OfferBounds(repo, lineage, i, j, k - 1);
    }
  }

  /** The computed costs are the least costs exactly when they fit. Lengths are
      signed 64-bit numbers. */
  lemma CostsAreRightExactly(repo: Repository, lineage: seq<string>)
    requires Bounded(repo, MAX_INT64)
    ensures (forall j: nat :: j < |lineage| ==> Right(repo, lineage, j)) <==> Fits(repo, lineage)
  {
    if Fits(repo, lineage) {
      forall j: nat | j < |lineage|
        ensures Right(repo, lineage, j)
      {
        CostIsBest(repo, lineage, j);
      }
    } else if forall j: nat :: j < |lineage| ==> Right(repo, lineage, j) {
      forall i: nat, j: nat | i < j < |lineage|
        ensures Within(repo, lineage, i, j)
      {
        assert Right(repo, lineage, i) && Right(repo, lineage, j);
        OfferBounds(repo, lineage, i, j, j);
      }
      assert forall j: nat :: j < |lineage| ==> Right(repo, lineage, j) ==> Finite(Best(repo, lineage, j));
    }
  }

  /** Lengths that do not fit: of two ways to the last of three payloads the dearer
      is taken, because its cost wraps below zero. */
  lemma WrapIsTaken()
    ensures var repo := Repository((from, to) => Some(from + to), name => Some(0x4000_0000_0000_0000));
            var lineage := ["a", "b", "c"];
            && Bounded(repo, MAX_INT64) && !Fits(repo, lineage)
            && Best(repo, lineage, 2) == Some(0x4000_0000_0000_0000)
            && Cost(repo, lineage, 2) == Offer(repo, lineage, 1, 2) == -0x8000_0000_0000_0000
  {
    var repo := Repository((from: string, to: string) => Some(from + to), (name: string) => Some(0x4000_0000_0000_0000));
    var lineage := ["a", "b", "c"];
    assert Best(repo, lineage, 0) == Some(0);
    assert BestVia(repo, lineage, 1, 0) == None && BestVia(repo, lineage, 1, 1) == Some(0x4000_0000_0000_0000);
    assert Best(repo, lineage, 1) == Some(0x4000_0000_0000_0000);
    assert BestVia(repo, lineage, 2, 0) == None && BestVia(repo, lineage, 2, 1) == Some(0x4000_0000_0000_0000);
    assert BestVia(repo, lineage, 2, 2) == Some(0x4000_0000_0000_0000);
    assert CostVia(repo, lineage, 1, 0) == INFINITE && CostVia(repo, lineage, 1, 1) == 0x4000_0000_0000_0000;
    assert Cost(repo, lineage, 1) == 0x4000_0000_0000_0000;
    assert CostVia(repo, lineage, 2, 0) == INFINITE && CostVia(repo, lineage, 2, 1) == 0x4000_0000_0000_0000;
    assert Offer(repo, lineage, 1, 2) == -0x8000_0000_0000_0000;
    assert !Within(repo, lineage, 1, 2);
  }

  /** Every least cost is bounded by one ceiling per stop. */
  lemma {:induction false} BestIsBounded(repo: Repository, lineage: seq<string>, ceiling: nat, j: nat)
    requires j < |lineage| && Bounded(repo, ceiling)
    ensures Best(repo, lineage, j).Some? ==> Best(repo, lineage, j).value <= j * ceiling
    decreases j, j + 1
  {
    if j > 0 {
      BestViaBounded(repo, lineage, ceiling, j, j);
    }
  }

  lemma {:induction false} BestViaBounded(repo: Repository, lineage: seq<string>, ceiling: nat, j: nat, k: nat)
    requires k <= j < |lineage| && Bounded(repo, ceiling)
    ensures BestVia(repo, lineage, j, k).Some? ==> BestVia(repo, lineage, j, k).value <= j * ceiling
    decreases j, k
  {
    if k > 0 {
      BestViaBounded(repo, lineage, ceiling, j, k - 1);
      BestIsBounded(repo, lineage, ceiling, k - 1);
      OneMore(k - 1, j, ceiling);
    }
  }

  lemma OneMore(k: nat, j: nat, ceiling: nat)
    requires k < j
    ensures k * ceiling + ceiling <= j * ceiling
  {
    var rest := j - k - 1;
    assert j * ceiling == (k + 1 + rest) * ceiling == k * ceiling + ceiling + rest * ceiling;
  }

  /** A walk within the limit fits under any ceiling below a 32nd of the largest
      signed number. */
  lemma WalkFits(repo: Repository, lineage: seq<string>, ceiling: nat)
    requires |lineage| <= MAX_WALK && Bounded(repo, ceiling) && ceiling < INFINITE / MAX_WALK
    ensures Fits(repo, lineage)
  {
    assert MAX_WALK * ceiling < INFINITE;
    forall i: nat, j: nat | i < j < |lineage|
      ensures Within(repo, lineage, i, j)
    {
      BestIsBounded(repo, lineage, ceiling, i);
      OneMore(i, MAX_WALK, ceiling);
    }
    forall j: nat | j < |lineage|
      ensures Finite(Best(repo, lineage, j))
    {
      BestIsBounded(repo, lineage, ceiling, j);
      OneMore(j, MAX_WALK, ceiling);
    }
  }

  /** The default ceiling is one of them. */
  lemma DefaultCeilingFits(repo: Repository, lineage: seq<string>)
    requires |lineage| <= MAX_WALK && Bounded(repo, TARGET_CEILING)
    ensures Fits(repo, lineage)
  {
    WalkFits(repo, lineage, TARGET_CEILING);
  }

  // The table that computes it.

  /** Entry j of the two arrays after every stop before k has been tried: the
      least offer so far, and the stop that made it. */
  ghost predicate Entry(repo: Repository, lineage: seq<string>, cost: seq<int>, from: seq<int>, j: nat, k: nat)
    requires j < |lineage| == |cost| == |from|
  {
    if j == 0 then cost[0] == 0
    else
      && k <= j
      && cost[j] == CostVia(repo, lineage, j, k)
      && (cost[j] != INFINITE ==>
            && 0 <= from[j] < k
            && Cost(repo, lineage, from[j]) != INFINITE && Edge(repo, lineage, from[j], j).Some?
            && cost[j] == Offer(repo, lineage, from[j], j))
  }

  /** After rows 0..i-1: payloads up to i are settled, later ones have seen the
      stops before i. */
  ghost predicate Table(repo: Repository, lineage: seq<string>, cost: seq<int>, from: seq<int>, i: nat) {
    && |cost| == |from| == |lineage|
    && forall j: nat :: j < |lineage| ==> At(repo, lineage, cost, from, j, i)
  }

  ghost predicate At(repo: Repository, lineage: seq<string>, cost: seq<int>, from: seq<int>, j: nat, i: nat)
    requires j < |lineage| == |cost| == |from|
  {
    Entry(repo, lineage, cost, from, j, if j < i then j else i)
  }

  /** In the middle of row i: payloads before j have seen stop i as well. */
  ghost predicate InRow(repo: Repository, lineage: seq<string>, cost: seq<int>, from: seq<int>, i: nat, j: nat) {
    && |cost| == |from| == |lineage|
    && forall k: nat :: k < |lineage| ==> RowAt(repo, lineage, cost, from, i, j, k)
  }

  ghost predicate RowAt(repo: Repository, lineage: seq<string>, cost: seq<int>, from: seq<int>, i: nat, j: nat, k: nat)
    requires k < |lineage| == |cost| == |from|
  {
    At(repo, lineage, cost, from, k, if k < j then i + 1 else i)
  }

  /** Tries stop i for payload j. */
  method Relax(repo: Repository, lineage: seq<string>, cost: array<int>, from: array<int>, i: nat, j: nat)
    requires cost != from && cost.Length == from.Length == |lineage|
    requires i < j < |lineage|
    requires cost[i] == Cost(repo, lineage, i) != INFINITE
    requires Entry(repo, lineage, cost[..], from[..], j, i)
    modifies cost, from
    ensures Entry(repo, lineage, cost[..], from[..], j, i + 1)
    ensures forall k :: 0 <= k < cost.Length && k != j ==> cost[k] == old(cost[k]) && from[k] == old(from[k])
  {
    var size := Edge(repo, lineage, i, j);
    if size.Some? {
      var total := WrapInt64(cost[i] + size.value);
      if total < cost[j] {
        cost[j] := total;
        from[j] := i;
      }
    }
  }

  lemma RowStep(repo: Repository, lineage: seq<string>, cost: seq<int>, from: seq<int>,
                cost': seq<int>, from': seq<int>, i: nat, j: nat)
    requires i < j < |lineage| && InRow(repo, lineage, cost, from, i, j)
    requires |cost'| == |from'| == |lineage|
    requires forall k :: 0 <= k < |lineage| && k != j ==> cost[k] == cost'[k] && from[k] == from'[k]
    requires Entry(repo, lineage, cost', from', j, i + 1)
    ensures InRow(repo, lineage, cost', from', i, j + 1)
  {
    var next := j + 1;
    forall k: nat | k < |lineage|
      ensures RowAt(repo, lineage, cost', from', i, next, k)
    {
      assert RowAt(repo, lineage, cost, from, i, j, k);
    }
  }

  lemma RowStarts(repo: Repository, lineage: seq<string>, cost: seq<int>, from: seq<int>, i: nat)
    requires Table(repo, lineage, cost, from, i)
    ensures InRow(repo, lineage, cost, from, i, i + 1)
  {
    var next := i + 1;
    forall k: nat | k < |lineage|
      ensures RowAt(repo, lineage, cost, from, i, next, k)
    {
      assert At(repo, lineage, cost, from, k, i);
    }
  }

  lemma RowEnds(repo: Repository, lineage: seq<string>, cost: seq<int>, from: seq<int>, i: nat)
    requires InRow(repo, lineage, cost, from, i, |lineage|)
    ensures Table(repo, lineage, cost, from, i + 1)
  {
    var next := i + 1;
    forall k: nat | k < |lineage|
      ensures At(repo, lineage, cost, from, k, next)
    {
      assert RowAt(repo, lineage, cost, from, i, |lineage|, k);
    }
  }

  /** Row i of the table: stop i is tried for every later payload. */
  method Row(repo: Repository, lineage: seq<string>, cost: array<int>, from: array<int>, i: nat)
    requires cost != from && cost.Length == from.Length == |lineage|
    requires i + 1 < |lineage|
    requires cost[i] == Cost(repo, lineage, i) != INFINITE
    requires Table(repo, lineage, cost[..], from[..], i)
    modifies cost, from
    ensures Table(repo, lineage, cost[..], from[..], i + 1)
  {
    RowStarts(repo, lineage, cost[..], from[..], i);
    var j := i + 1;
    while j < |lineage|
      invariant i < j <= |lineage|
      invariant cost[i] == Cost(repo, lineage, i)
      invariant InRow(repo, lineage, cost[..], from[..], i, j)
    {
      ghost var c, f := cost[..], from[..];
      assert RowAt(repo, lineage, c, f, i, j, j);
      Relax(repo, lineage, cost, from, i, j);
      RowStep(repo, lineage, c, f, cost[..], from[..], i, j);
      j := j + 1;
    }
    RowEnds(repo, lineage, cost[..], from[..], i);
  }

  lemma SettledEntry(repo: Repository, lineage: seq<string>, cost: seq<int>, from: seq<int>, i: nat)
    requires Table(repo, lineage, cost, from, i) && i < |lineage|
    ensures cost[i] == Cost(repo, lineage, i)
  {
    assert At(repo, lineage, cost, from, i, i);
  }

  /** An unreachable stop changes nothing for the others. */
  lemma SkipRow(repo: Repository, lineage: seq<string>, cost: seq<int>, from: seq<int>, i: nat)
    requires Table(repo, lineage, cost, from, i) && i < |lineage| && Cost(repo, lineage, i) == INFINITE
    ensures Table(repo, lineage, cost, from, i + 1)
  {
    var next := i + 1;
    forall j: nat | j < |lineage|
      ensures At(repo, lineage, cost, from, j, next)
    {
      assert At(repo, lineage, cost, from, j, i);
    }
  }

  method FillTable(repo: Repository, lineage: seq<string>, cost: array<int>, from: array<int>)
    requires cost != from && cost.Length == from.Length == |lineage| > 0
    modifies cost, from
    ensures Table(repo, lineage, cost[..], from[..], |lineage| - 1)
  {
    cost[0], from[0] := 0, 0;
    for k := 1 to |lineage|
      invariant cost[0] == 0 && forall j :: 1 <= j < k ==> cost[j] == INFINITE
    {
      cost[k], from[k] := INFINITE, -1;
    }
    assert Table(repo, lineage, cost[..], from[..], 0) by {
      forall j: nat | j < |lineage|
        ensures At(repo, lineage, cost[..], from[..], j, 0)
      {
      }
    }
    for i := 0 to |lineage| - 1
      invariant Table(repo, lineage, cost[..], from[..], i)
    {
      SettledEntry(repo, lineage, cost[..], from[..], i);
      if cost[i] == INFINITE {
        SkipRow(repo, lineage, cost[..], from[..], i);
      } else {
        Row(repo, lineage, cost, from, i);
      }
    }
  }

  // Reading the route back out of it.

  /** The payloads named by the from array, from the first up to j. */
  ghost function Back(from: seq<int>, j: nat): (p: seq<nat>)
    requires j < |from|
    ensures p != [] && End(p) == j
    decreases j
  {
    if j == 0 || !(0 <= from[j] < j) then [j] else Back(from, from[j]) + [j]
  }

  /** A reached payload other than the first came from an earlier one that was
      reached, by a published patch. */
  lemma CameFrom(repo: Repository, lineage: seq<string>, cost: seq<int>, from: seq<int>, j: nat)
    requires 0 < j < |lineage| && Table(repo, lineage, cost, from, |lineage| - 1)
    requires Cost(repo, lineage, j) != INFINITE
    ensures 0 <= from[j] < j && Edge(repo, lineage, from[j], j).Some?
    ensures Cost(repo, lineage, from[j]) != INFINITE && Cost(repo, lineage, j) == Offer(repo, lineage, from[j], j)
  {
    assert At(repo, lineage, cost, from, j, |lineage| - 1);
  }

  /** Adding to a wrapped sum and wrapping again loses nothing. */
  lemma WrapAbsorbs(a: int, b: int)
    ensures WrapInt64(WrapInt64(a) + b) == WrapInt64(a + b)
  {
    var k := (WrapInt64(a) - a) / TWO64;
    assert WrapInt64(a) + b == a + b + k * TWO64;
    assert (a + b + k * TWO64) % TWO64 == (a + b) % TWO64;
  }

  /** Reading back gives a path, and its cost is the recorded one up to
      wrap-around. */
  lemma {:induction false} BackIsPath(repo: Repository, lineage: seq<string>, cost: seq<int>, from: seq<int>, j: nat)
    requires j < |lineage| && Table(repo, lineage, cost, from, |lineage| - 1)
    requires Cost(repo, lineage, j) != INFINITE
    ensures IsPath(repo, lineage, Back(from, j))
    ensures WrapInt64(CostOf(repo, lineage, Back(from, j))) == Cost(repo, lineage, j)
    decreases j
  {
    if j > 0 {
      CameFrom(repo, lineage, cost, from, j);
      var p, size := Back(from, from[j]), Edge(repo, lineage, from[j], j).value;
      BackIsPath(repo, lineage, cost, from, from[j]);
      PathExtend(repo, lineage, p, j);
      WrapAbsorbs(CostOf(repo, lineage, p), size);
    }
  }

  /** Where the costs fit, the path read back costs exactly the least. */
  lemma {:induction false} BackIsCheapest(repo: Repository, lineage: seq<string>, cost: seq<int>, from: seq<int>, j: nat)
    requires Fits(repo, lineage) && j < |lineage| && Table(repo, lineage, cost, from, |lineage| - 1)
    requires Cost(repo, lineage, j) != INFINITE
    ensures IsPath(repo, lineage, Back(from, j))
    ensures Best(repo, lineage, j) == Some(CostOf(repo, lineage, Back(from, j)))
    decreases j
  {
    if j > 0 {
      CameFrom(repo, lineage, cost, from, j);
      BackIsCheapest(repo, lineage, cost, from, from[j]);
      PathExtend(repo, lineage, Back(from, from[j]), j);
      CostIsBest(repo, lineage, j);
      CostIsBest(repo, lineage, from[j]);
      assert Within(repo, lineage, from[j], j);
      WrapInt64IsIdentity(Cost(repo, lineage, from[j]) + Edge(repo, lineage, from[j], j).value);
    }
  }

  /** One hop per leg of the path. */
  ghost predicate Follows(repo: Repository, lineage: seq<string>, p: seq<nat>, hops: seq<Hop>) {
    && IsPath(repo, lineage, p)
    && |hops| == |p| - 1
    && forall k: nat :: k < |hops| ==> IsHop(repo, lineage, p, k, hops[k])
  }

  ghost predicate IsHop(repo: Repository, lineage: seq<string>, p: seq<nat>, k: nat, h: Hop)
    requires k + 1 < |p| && p[k] < |lineage| && p[k + 1] < |lineage|
  {
    Some(h.patch) == repo.patchPath(lineage[p[k]], lineage[p[k + 1]]) && h.to == lineage[p[k + 1]]
  }

  /** Reverses a slice in place, end to end. */
  method Reverse(a: array<Hop>)
    modifies a
    ensures forall k :: 0 <= k < a.Length ==> a[k] == old(a[a.Length - 1 - k])
  {
    var i, j := 0, a.Length - 1;
    while i < j
      invariant 0 <= i && i + j == a.Length - 1 && i <= j + 1
      invariant forall k :: 0 <= k < i || j < k < a.Length ==> a[k] == old(a[a.Length - 1 - k])
      invariant forall k :: i <= k <= j ==> a[k] == old(a[k])
    {
      a[i], a[j] := a[j], a[i];
      i, j := i + 1, j - 1;
    }
  }

  /** The hops of the path, last first, as they are met going backwards. */
  method Backtrack(repo: Repository, lineage: seq<string>, cost: seq<int>, from: seq<int>)
    returns (hops: seq<Hop>)
    requires |lineage| > 0 && Table(repo, lineage, cost, from, |lineage| - 1)
    requires Cost(repo, lineage, |lineage| - 1) != INFINITE
    ensures var p := Back(from, |lineage| - 1);
            && IsPath(repo, lineage, p) && |hops| == |p| - 1
            && forall k: nat :: k < |hops| ==> IsHop(repo, lineage, p, |hops| - 1 - k, hops[k])
  {
    hops := [];
    var j := |lineage| - 1;
    ghost var p := Back(from, j);
    BackIsPath(repo, lineage, cost, from, j);
    while j > 0
      invariant 0 <= j < |lineage| && Cost(repo, lineage, j) != INFINITE
      invariant |Back(from, j)| + |hops| == |p| && Back(from, j) <= p
      invariant forall k: nat :: k < |hops| ==> IsHop(repo, lineage, p, |p| - 2 - k, hops[k])
    {
      CameFrom(repo, lineage, cost, from, j);
      ghost var b := Back(from, j);
      assert b[|b| - 1] == j && b[|b| - 2] == from[j];
      var patch := repo.patchPath(lineage[from[j]], lineage[j]).value;
      hops := hops + [Hop(patch, lineage[j])];
      j := from[j];
    }
  }

  /** The shortest path by dynamic programming. What it returns is always a
      contiguous chain of published patches from the first payload to the last;
      where the costs fit, no such chain costs less and it is missing only when
      there is none. */
  method Cheapest(repo: Repository, lineage: seq<string>)
    returns (hops: Option<seq<Hop>>, total: int, ghost path: seq<nat>)
    requires |lineage| >= 1
    ensures hops.Some? ==>
              && Follows(repo, lineage, path, hops.value) && End(path) == |lineage| - 1
              && total == WrapInt64(CostOf(repo, lineage, path))
    ensures hops.Some? && Fits(repo, lineage) ==>
              && total == CostOf(repo, lineage, path)
              && forall q :: IsPath(repo, lineage, q) && End(q) == |lineage| - 1 ==> total <= CostOf(repo, lineage, q)
    ensures hops.None? ==> path == []
    ensures hops.None? && Fits(repo, lineage) ==> forall q :: IsPath(repo, lineage, q) ==> End(q) != |lineage| - 1
  {
    var n := |lineage|;
    var cost, from := new int[n], new int[n];
    FillTable(repo, lineage, cost, from);
    SettledEntry(repo, lineage, cost[..], from[..], n - 1);
    if Fits(repo, lineage) {
      NoneIsCheaper(repo, lineage, n - 1);
      CostIsBest(repo, lineage, n - 1);
    }
    if cost[n - 1] == INFINITE {
      return None, 0, [];
    }
    var backwards := Backtrack(repo, lineage, cost[..], from[..]);
    path := Back(from[..], n - 1);
    BackIsPath(repo, lineage, cost[..], from[..], n - 1);
    if Fits(repo, lineage) {
      BackIsCheapest(repo, lineage, cost[..], from[..], n - 1);
    }
    var forwards := Forwards(repo, lineage, path, backwards);
    return Some(forwards), cost[n - 1], path;
  }

  /** The hops in the order they are taken. */
  method Forwards(repo: Repository, lineage: seq<string>, ghost p: seq<nat>, backwards: seq<Hop>)
    returns (hops: seq<Hop>)
    requires IsPath(repo, lineage, p) && |backwards| == |p| - 1
    requires forall k: nat :: k < |backwards| ==> IsHop(repo, lineage, p, |backwards| - 1 - k, backwards[k])
    ensures Follows(repo, lineage, p, hops)
  {
    var a := new Hop[|backwards|](i requires 0 <= i < |backwards| => backwards[i]);
    Reverse(a);
    hops := a[..];
    forall k: nat | k < |hops|
      ensures IsHop(repo, lineage, p, k, hops[k])
    {
      var m: nat := |backwards| - 1 - k;
      assert IsHop(repo, lineage, p, |backwards| - 1 - m, backwards[m]);
    }
  }

  lemma NoneIsCheaper(repo: Repository, lineage: seq<string>, j: nat)
    requires j < |lineage|
    ensures forall q :: IsPath(repo, lineage, q) && End(q) == j ==>
              Best(repo, lineage, j).Some? && Best(repo, lineage, j).value <= CostOf(repo, lineage, q)
  {
    forall q | IsPath(repo, lineage, q) && End(q) == j
      ensures Best(repo, lineage, j).Some? && Best(repo, lineage, j).value <= CostOf(repo, lineage, q)
    {
      BestIsLeast(repo, lineage, q);
    }
  }
}
