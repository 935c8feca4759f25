/** Planning an update past a migration floor: the stepping stones, and that no
    shorter way over them exists. */
module Walk {
  import opened Bytes
  import opened Ordering
  import opened Semver
  import Chain
  import Route

  datatype Descriptor = Descriptor(
    version: Version, channel: string, os: string, arch: string,
    minFrom: Option<Version>, minClient: Option<Version>)

  /** The parts of an updater that decide what it may install. */
  datatype Client = Client(channel: string, os: string, arch: string, clientVersion: string, allowDowngrade: bool)

  datatype Verdict = Applicable | BelowFloor | Refused

  /** The release is for this channel and platform, and for a client as new as
      this one. */
  predicate MeantFor(u: Client, d: Descriptor, cmp: Comparison) {
    && d.channel == u.channel && d.os == u.os && d.arch == u.arch
    && (d.minClient.Some? ==> ValidVersion(u.clientVersion) && cmp(u.clientVersion, d.minClient.value) >= 0)
  }

  /** It is an update of what is there, or the policy does not ask for one. */
  predicate Permitted(u: Client, d: Descriptor, at: Version, cmp: Comparison) {
    cmp(d.version, at) > 0 || u.allowDowngrade
  }

  /** It migrates from there. */
  predicate Migrates(d: Descriptor, at: Version, cmp: Comparison) {
    d.minFrom.Some? ==> cmp(at, d.minFrom.value) >= 0
  }

  /** The release may be installed over what is there, if anything is. */
  predicate MayInstall(u: Client, d: Descriptor, at: Option<Version>, cmp: Comparison) {
    MeantFor(u, d, cmp) && (at.Some? ==> Permitted(u, d, at.value, cmp) && Migrates(d, at.value, cmp))
  }

  /** The verdict of the checks, in the order they are made: a release that may be
      installed passes, and of the others the migration floor is blamed only if
      nothing else stands in the way. */
  function Check(u: Client, d: Descriptor, installed: Option<Version>, cmp: Comparison): (r: Verdict)
    ensures r == Applicable <==> MayInstall(u, d, installed, cmp)
    ensures r == BelowFloor <==>
            (&& MeantFor(u, d, cmp) && installed.Some?
             && Permitted(u, d, installed.value, cmp) && !Migrates(d, installed.value, cmp))
  {
    if d.channel != u.channel || d.os != u.os || d.arch != u.arch then Refused
    else if d.minClient.Some? && (!ValidVersion(u.clientVersion) || cmp(u.clientVersion, d.minClient.value) < 0) then Refused
    else if installed.None? then Applicable
    else if cmp(d.version, installed.value) <= 0 && !u.allowDowngrade then Refused
    else if d.minFrom.Some? && cmp(installed.value, d.minFrom.value) < 0 then BelowFloor
    else Applicable
  }

  /** One step of a walk: forwards, and applicable on what it lands on. */
  predicate Jump(u: Client, at: Version, c: Descriptor, cmp: Comparison) {
    cmp(c.version, at) > 0 && MayInstall(u, c, Some(at), cmp)
  }

  /** Whatever may be installed on an older version may be installed on a newer
      one it still exceeds: floors only ever look down. */
  lemma JumpFromHigher(u: Client, at: Version, higher: Version, c: Descriptor, cmp: Comparison)
    requires TotalPreorder(cmp) && Jump(u, at, c, cmp)
    requires cmp(at, higher) <= 0 && cmp(c.version, higher) > 0
    ensures Jump(u, higher, c, cmp)
  {
    if c.minFrom.Some? {
      var floor := c.minFrom.value;
      Swap(cmp, floor, at);
      Link(cmp, floor, at, higher);
      Swap(cmp, higher, floor);
    }
  }

  function Before(start: Version, p: seq<Descriptor>, i: nat): Version
    requires i <= |p|
  {
    if i == 0 then start else p[i - 1].version
  }

  ghost predicate StepAt(u: Client, cands: seq<Descriptor>, start: Version, p: seq<Descriptor>, i: nat, cmp: Comparison)
    requires i < |p|
  {
    p[i] in cands && Jump(u, Before(start, p, i), p[i], cmp)
  }

  /** A sequence of installations that honours every floor on the way. */
  ghost predicate Path(u: Client, cands: seq<Descriptor>, start: Version, p: seq<Descriptor>, cmp: Comparison) {
    forall i: nat :: i < |p| ==> StepAt(u, cands, start, p, i, cmp)
  }

  /** A path that arrives at d. */
  ghost predicate Admissible(u: Client, cands: seq<Descriptor>, start: Version, d: Descriptor, p: seq<Descriptor>,
                             cmp: Comparison) {
    p != [] && p[|p| - 1] == d && Path(u, cands, start, p, cmp)
  }

  ghost predicate AscendingVersions(cands: seq<Descriptor>, cmp: Comparison) {
    forall i, j :: 0 <= i < j < |cands| ==> cmp(cands[i].version, cands[j].version) < 0
  }

  /** No candidate that may follow `at` ranks above pick, and pick may. */
  ghost predicate Furthest(u: Client, cands: seq<Descriptor>, at: Version, pick: Option<Descriptor>, cmp: Comparison) {
    match pick
    case None => forall c :: c in cands ==> !Jump(u, at, c, cmp)
    case Some(q) =>
      && q in cands && Jump(u, at, q, cmp)
      && forall c :: c in cands && Jump(u, at, c, cmp) ==> cmp(c.version, q.version) <= 0
  }

  /** One greedy step: the highest candidate with a jump to it, if there is any. */
  method FurthestReachable(u: Client, cands: seq<Descriptor>, at: Version, cmp: Comparison)
    returns (pick: Option<Descriptor>)
    requires TotalPreorder(cmp) && AscendingVersions(cands, cmp)
    ensures Furthest(u, cands, at, pick, cmp)
  {
    pick := None;
    for i := 0 to |cands|
      invariant Furthest(u, cands[..i], at, pick, cmp)
    {
      var c := cands[i];
      assert cands[..i + 1] == cands[..i] + [c];
      if cmp(c.version, at) > 0 && Check(u, c, Some(at), cmp) == Applicable {
        forall b | b in cands[..i + 1]
          ensures cmp(b.version, c.version) <= 0
        {
          var k :| 0 <= k < i + 1 && cands[k] == b;
          Reflexive(cmp, c.version);
        }
        pick := Some(c);
      }
    }
    assert cands[..|cands|] == cands;
  }

  // The greedy walk stays ahead of every other.

  /** After as many steps, no path has gone further than out. */
  ghost predicate Ahead(u: Client, cands: seq<Descriptor>, start: Version, out: seq<Descriptor>, cmp: Comparison) {
    forall p: seq<Descriptor> :: Path(u, cands, start, p, cmp) && 0 < |p| <= |out| ==>
      cmp(p[|p| - 1].version, out[|p| - 1].version) <= 0
  }

  lemma PathPrefix(u: Client, cands: seq<Descriptor>, start: Version, p: seq<Descriptor>, k: nat, cmp: Comparison)
    requires Path(u, cands, start, p, cmp) && k <= |p|
    ensures Path(u, cands, start, p[..k], cmp)
  {
    forall i: nat | i < k
      ensures StepAt(u, cands, start, p[..k], i, cmp)
    {
      assert StepAt(u, cands, start, p, i, cmp);
      assert Before(start, p[..k], i) == Before(start, p, i);
    }
  }

  lemma AheadStep(u: Client, cands: seq<Descriptor>, start: Version, out: seq<Descriptor>, next: Descriptor, cmp: Comparison)
    requires TotalPreorder(cmp) && Ahead(u, cands, start, out, cmp)
    requires Furthest(u, cands, Before(start, out, |out|), Some(next), cmp)
    ensures Ahead(u, cands, start, out + [next], cmp)
  {
    var at := Before(start, out, |out|);
    forall p: seq<Descriptor> | Path(u, cands, start, p, cmp) && 0 < |p| <= |out| + 1
      ensures cmp(p[|p| - 1].version, (out + [next])[|p| - 1].version) <= 0
    {
      if |p| == |out| + 1 {
        StaysBehind(u, cands, start, out, p, cmp);
        var c, from := p[|p| - 1], Before(start, p, |p| - 1);
        assert StepAt(u, cands, start, p, |p| - 1, cmp);
        if cmp(c.version, at) > 0 {
          JumpFromHigher(u, from, at, c, cmp);
        } else {
          Swap(cmp, at, next.version);
          Link(cmp, c.version, at, next.version);
        }
      }
    }
  }

  /** One step before its end, a path is no further than out. */
  lemma StaysBehind(u: Client, cands: seq<Descriptor>, start: Version, out: seq<Descriptor>, p: seq<Descriptor>, cmp: Comparison)
    requires TotalPreorder(cmp) && Ahead(u, cands, start, out, cmp)
    requires Path(u, cands, start, p, cmp) && |p| == |out| + 1
    ensures cmp(Before(start, p, |out|), Before(start, out, |out|)) <= 0
  {
    if out != [] {
      PathPrefix(u, cands, start, p, |out|, cmp);
      AheadOf(u, cands, start, out, p[..|out|], cmp);
    } else {
      Reflexive(cmp, start);
    }
  }

  lemma AheadOf(u: Client, cands: seq<Descriptor>, start: Version, out: seq<Descriptor>, q: seq<Descriptor>, cmp: Comparison)
    requires Ahead(u, cands, start, out, cmp) && Path(u, cands, start, q, cmp) && 0 < |q| <= |out|
    ensures cmp(q[|q| - 1].version, out[|q| - 1].version) <= 0
  {
  }

  /** When nothing may follow `at`, no path that has to pass it ever does. */
  lemma {:induction false} NothingPasses(u: Client, cands: seq<Descriptor>, start: Version, at: Version,
                                         p: seq<Descriptor>, cmp: Comparison)
    requires TotalPreorder(cmp) && Path(u, cands, start, p, cmp)
    requires cmp(start, at) <= 0
    requires Furthest(u, cands, at, None, cmp)
    ensures cmp(Before(start, p, |p|), at) <= 0
  {
    if p != [] {
      var k := |p| - 1;
      PathPrefix(u, cands, start, p, k, cmp);
      NothingPasses(u, cands, start, at, p[..k], cmp);
      assert Before(start, p[..k], k) == Before(start, p, k);
      var c := p[k];
      assert StepAt(u, cands, start, p, k, cmp);
      if cmp(c.version, at) > 0 {
        JumpFromHigher(u, Before(start, p, k), at, c, cmp);
      }
    }
  }

  datatype Plan =
    | Steps(walk: seq<Descriptor>)
    | NoBridge
    | TooLong

  /** The candidates are ordered and d is the newest of them. */
  ghost predicate Ladder(cands: seq<Descriptor>, d: Descriptor, cmp: Comparison) {
    && cands != [] && cands[|cands| - 1] == d
    && AscendingVersions(cands, cmp)
  }

  lemma BelowTheTop(cands: seq<Descriptor>, d: Descriptor, c: Descriptor, cmp: Comparison)
    requires TotalPreorder(cmp) && Ladder(cands, d, cmp) && c in cands
    ensures c == d || cmp(c.version, d.version) < 0
  {
    var i :| 0 <= i < |cands| && cands[i] == c;
  }

  ghost predicate Shortest(u: Client, cands: seq<Descriptor>, start: Version, d: Descriptor, out: seq<Descriptor>,
                           cmp: Comparison) {
    && Admissible(u, cands, start, d, out, cmp)
    && forall p :: Admissible(u, cands, start, d, p, cmp) ==> |out| <= |p|
  }

  /** What the loop knows: a path so far, never caught up with, and not yet
      arrived before its last step. */
  ghost predicate Climbing(u: Client, cands: seq<Descriptor>, start: Version, d: Descriptor, out: seq<Descriptor>,
                           cmp: Comparison) {
    && Path(u, cands, start, out, cmp)
    && Ahead(u, cands, start, out, cmp)
    && NotYet(out, d)
  }

  ghost predicate NotYet(out: seq<Descriptor>, d: Descriptor) {
    forall i :: 0 <= i < |out| - 1 ==> out[i].version != d.version
  }

  /** No path arrives in fewer steps than out has without having arrived. */
  lemma ArrivesNoSooner(u: Client, cands: seq<Descriptor>, start: Version, d: Descriptor, out: seq<Descriptor>,
                        p: seq<Descriptor>, cmp: Comparison)
    requires TotalPreorder(cmp) && Ladder(cands, d, cmp) && Climbing(u, cands, start, d, out, cmp)
    requires Admissible(u, cands, start, d, p, cmp)
    ensures |out| <= |p|
  {
    if |p| < |out| {
      var q := out[|p| - 1];
      assert cmp(d.version, q.version) <= 0 && q.version != d.version;
      assert StepAt(u, cands, start, out, |p| - 1, cmp);
      BelowTheTop(cands, d, q, cmp);
      Swap(cmp, d.version, q.version);
      assert false;
    }
  }

  lemma ClimbingStep(u: Client, cands: seq<Descriptor>, start: Version, d: Descriptor, out: seq<Descriptor>,
                     next: Descriptor, cmp: Comparison)
    requires TotalPreorder(cmp) && Climbing(u, cands, start, d, out, cmp)
    requires out == [] || out[|out| - 1].version != d.version
    requires Furthest(u, cands, Before(start, out, |out|), Some(next), cmp)
    ensures Climbing(u, cands, start, d, out + [next], cmp)
  {
    AheadStep(u, cands, start, out, next, cmp);
    PathAppend(u, cands, start, out, next, cmp);
    NotYetAppend(out, next, d);
  }

  lemma PathAppend(u: Client, cands: seq<Descriptor>, start: Version, out: seq<Descriptor>, next: Descriptor, cmp: Comparison)
    requires Path(u, cands, start, out, cmp) && next in cands && Jump(u, Before(start, out, |out|), next, cmp)
    ensures Path(u, cands, start, out + [next], cmp)
  {
    var all := out + [next];
    forall i: nat | i < |all|
      ensures StepAt(u, cands, start, all, i, cmp)
    {
      assert i < |out| ==> StepAt(u, cands, start, out, i, cmp);
      assert Before(start, all, i) == Before(start, out, i);
    }
  }

  lemma NotYetAppend(out: seq<Descriptor>, next: Descriptor, d: Descriptor)
    requires NotYet(out, d) && (out == [] || out[|out| - 1].version != d.version)
    ensures NotYet(out + [next], d)
  {
  }

  /** Where the climb stands. */
  ghost predicate StandsAt(u: Client, cands: seq<Descriptor>, start: Version, d: Descriptor, out: seq<Descriptor>,
                           at: Version, cmp: Comparison) {
    && at == Before(start, out, |out|) && Climbing(u, cands, start, d, out, cmp)
    && cmp(start, at) <= 0 && (at == d.version || cmp(at, d.version) < 0)
  }

  lemma StandsHigher(u: Client, cands: seq<Descriptor>, start: Version, d: Descriptor, out: seq<Descriptor>, at: Version,
                     next: Descriptor, cmp: Comparison)
    requires TotalPreorder(cmp) && Ladder(cands, d, cmp) && StandsAt(u, cands, start, d, out, at, cmp)
    requires at != d.version && Furthest(u, cands, at, Some(next), cmp)
    ensures StandsAt(u, cands, start, d, out + [next], next.version, cmp)
  {
    ClimbingStep(u, cands, start, d, out, next, cmp);
    BelowTheTop(cands, d, next, cmp);
    Swap(cmp, at, next.version);
    Link(cmp, start, at, next.version);
  }

  lemma StuckBelow(u: Client, cands: seq<Descriptor>, start: Version, d: Descriptor, out: seq<Descriptor>, at: Version,
                   cmp: Comparison)
    requires TotalPreorder(cmp) && StandsAt(u, cands, start, d, out, at, cmp)
    requires at != d.version && Furthest(u, cands, at, None, cmp)
    ensures Optimal(NoBridge, u, cands, start, d, cmp)
  {
    forall p: seq<Descriptor>
      ensures !Admissible(u, cands, start, d, p, cmp)
    {
      if Admissible(u, cands, start, d, p, cmp) {
        NothingPasses(u, cands, start, at, p, cmp);
        Swap(cmp, d.version, at);
      }
    }
  }

  lemma NeverShort(u: Client, cands: seq<Descriptor>, start: Version, d: Descriptor, out: seq<Descriptor>, at: Version,
                   cmp: Comparison)
    requires TotalPreorder(cmp) && Ladder(cands, d, cmp) && StandsAt(u, cands, start, d, out, at, cmp)
    requires |out| > Route.MAX_WALK
    ensures Optimal(TooLong, u, cands, start, d, cmp)
  {
    forall p: seq<Descriptor> | Admissible(u, cands, start, d, p, cmp)
      ensures |p| > Route.MAX_WALK
    {
      ArrivesNoSooner(u, cands, start, d, out, p, cmp);
    }
  }

  lemma Arrived(u: Client, cands: seq<Descriptor>, start: Version, d: Descriptor, out: seq<Descriptor>, cmp: Comparison)
    requires TotalPreorder(cmp) && Ladder(cands, d, cmp) && StandsAt(u, cands, start, d, out, d.version, cmp)
    requires |out| <= Route.MAX_WALK && cmp(start, d.version) < 0
    ensures Optimal(Steps(out), u, cands, start, d, cmp)
  {
    Reflexive(cmp, d.version);
    assert out != [];
    assert StepAt(u, cands, start, out, |out| - 1, cmp);
    BelowTheTop(cands, d, out[|out| - 1], cmp);
    forall p: seq<Descriptor> | Admissible(u, cands, start, d, p, cmp)
      ensures |out| <= |p|
    {
      ArrivesNoSooner(u, cands, start, d, out, p, cmp);
    }
  }

  /** Climbs from `start` to d, always as far as the floors allow. A walk it
      returns is as short as any; refusing means there is none of at most 32. */
  method Climb(u: Client, cands: seq<Descriptor>, start: Version, d: Descriptor, cmp: Comparison) returns (r: Plan)
    requires TotalPreorder(cmp) && Ladder(cands, d, cmp) && cmp(start, d.version) < 0
    ensures Optimal(r, u, cands, start, d, cmp)
  {
    var out: seq<Descriptor> := [];
    var at := start;
    Reflexive(cmp, start);
    while at != d.version
      invariant |out| <= Route.MAX_WALK
      invariant StandsAt(u, cands, start, d, out, at, cmp)
      decreases Route.MAX_WALK + 1 - |out|
    {
      var next := FurthestReachable(u, cands, at, cmp);
      if next.None? {
        StuckBelow(u, cands, start, d, out, at, cmp);
        return NoBridge;
      }
      StandsHigher(u, cands, start, d, out, at, next.value, cmp);
      out := out + [next.value];
      at := next.value.version;
      if |out| > Route.MAX_WALK {
        NeverShort(u, cands, start, d, out, at, cmp);
        return TooLong;
      }
    }
    Arrived(u, cands, start, d, out, cmp);
    return Steps(out);
  }

  // Where the candidates come from.

  /** What the repository publishes, and the descriptors it resolves. */
  datatype History = History(versions: seq<string>, descriptors: map<Version, Descriptor>)

  /** A descriptor is only ever resolved for the version it names. */
  ghost predicate Honest(h: History) {
    forall v :: v in h.descriptors ==> h.descriptors[v].version == v
  }

  /** A release that may serve as a step to d: d itself, or one published on the
      way there that resolves and is of the same channel. */
  ghost predicate SteppingStone(c: Descriptor, h: History, d: Descriptor, installed: Version, cmp: Comparison) {
    || c == d
    || (&& c.version in h.versions && c.version in h.descriptors && h.descriptors[c.version] == c
        && Chain.OnTheWay(c.version, installed, d.version, cmp) && c.version != d.version
        && c.channel == d.channel)
  }

  /** The releases of a walk that resolve and are of the channel. */
  ghost predicate Resolved(cands: seq<Descriptor>, vs: seq<Version>, h: History, channel: string) {
    forall c :: c in cands <==>
      c.version in vs && c.version in h.descriptors && h.descriptors[c.version] == c && c.channel == channel
  }

  lemma ResolvedStep(cands: seq<Descriptor>, vs: seq<Version>, v: Version, h: History, channel: string)
    requires Honest(h) && Resolved(cands, vs, h, channel)
    ensures v in h.descriptors && h.descriptors[v].channel == channel ==>
              Resolved(cands + [h.descriptors[v]], vs + [v], h, channel)
    ensures !(v in h.descriptors && h.descriptors[v].channel == channel) ==> Resolved(cands, vs + [v], h, channel)
  {
  }

  method Candidates(h: History, d: Descriptor, installed: Version, walk: seq<Version>, cmp: Comparison)
    returns (cands: seq<Descriptor>)
    requires TotalPreorder(cmp) && Honest(h)
    requires Chain.IsWalk(walk, h.versions, installed, d.version, cmp)
    requires walk != [] && walk[|walk| - 1] == d.version
    ensures Ladder(cands, d, cmp)
    ensures forall c :: c in cands <==> SteppingStone(c, h, d, installed, cmp)
  {
    cands := [];
    var n := |walk| - 1;
    for i := 0 to n
      invariant AscendingVersions(cands, cmp)
      invariant Resolved(cands, walk[..i], h, d.channel)
    {
      var v := walk[i];
      assert walk[..i + 1] == walk[..i] + [v];
      ResolvedStep(cands, walk[..i], v, h, d.channel);
      if v in h.descriptors && h.descriptors[v].channel == d.channel {
        AppendAbove(cands, h.descriptors[v], walk, i, h, d.channel, cmp);
        cands := cands + [h.descriptors[v]];
      }
    }
    AppendAbove(cands, d, walk, n, h, d.channel, cmp);
    StonesAre(cands, h, d, installed, walk, cmp);
    cands := cands + [d];
  }

  /** What comes later on the walk goes on top of the ladder. */
  lemma AppendAbove(cands: seq<Descriptor>, c: Descriptor, walk: seq<Version>, i: nat, h: History, channel: string,
                    cmp: Comparison)
    requires AscendingVersions(cands, cmp) && Ascending(walk, cmp) && i < |walk|
    requires Resolved(cands, walk[..i], h, channel) && c.version == walk[i]
    ensures AscendingVersions(cands + [c], cmp)
  {
    AllBelow(cands, walk, i, cmp);
  }

  lemma AllBelow(cands: seq<Descriptor>, walk: seq<Version>, i: nat, cmp: Comparison)
    requires Ascending(walk, cmp) && i < |walk|
    requires forall c :: c in cands ==> c.version in walk[..i]
    ensures forall k :: 0 <= k < |cands| ==> cmp(cands[k].version, walk[i]) < 0
  {
    forall k | 0 <= k < |cands|
      ensures cmp(cands[k].version, walk[i]) < 0
    {
      assert cands[k] in cands;
      var j :| 0 <= j < i && walk[j] == cands[k].version;
    }
  }

  lemma FrontOfWalk(walk: seq<Version>, v: Version, cmp: Comparison)
    requires TotalPreorder(cmp) && Ascending(walk, cmp) && walk != []
    ensures v in walk[..|walk| - 1] <==> v in walk && v != walk[|walk| - 1]
  {
    var n := |walk| - 1;
    Reflexive(cmp, v);
    if v in walk[..n] {
      var i :| 0 <= i < n && walk[i] == v;
      assert cmp(walk[i], walk[n]) < 0;
    }
    if v in walk && v != walk[n] {
      var i :| 0 <= i < |walk| && walk[i] == v;
      assert walk[..n][i] == v;
    }
  }

  lemma StonesAre(cands: seq<Descriptor>, h: History, d: Descriptor, installed: Version, walk: seq<Version>, cmp: Comparison)
    requires TotalPreorder(cmp)
    requires Chain.IsWalk(walk, h.versions, installed, d.version, cmp) && walk != [] && walk[|walk| - 1] == d.version
    requires Resolved(cands, walk[..|walk| - 1], h, d.channel)
    ensures forall c :: c in cands + [d] <==> SteppingStone(c, h, d, installed, cmp)
  {
    forall c: Descriptor
      ensures c in cands + [d] <==> SteppingStone(c, h, d, installed, cmp)
    {
      FrontOfWalk(walk, c.version, cmp);
      assert c in cands + [d] <==> c in cands || c == d;
      assert c.version in walk <==> c.version in h.versions && Chain.OnTheWay(c.version, installed, d.version, cmp);
    }
  }

  /** What a plan promises about the stepping stones it was made from. */
  ghost predicate Optimal(r: Plan, u: Client, cands: seq<Descriptor>, start: Version, d: Descriptor, cmp: Comparison) {
    match r
    case Steps(walk) => |walk| <= 32 && Shortest(u, cands, start, d, walk, cmp)
    case NoBridge => forall p :: !Admissible(u, cands, start, d, p, cmp)
    case TooLong => forall p :: Admissible(u, cands, start, d, p, cmp) ==> |p| > 32
  }

  /** Planning over the published history, under any total preorder. */
  method PlanOver(u: Client, d: Descriptor, installed: Version, h: History, cmp: Comparison)
    returns (r: Option<Plan>, ghost cands: seq<Descriptor>)
    requires TotalPreorder(cmp) && Honest(h)
    ensures r.Some? <==> cmp(installed, d.version) < 0 && d.version in h.versions
                         && !Chain.Ambiguous(h.versions, installed, d.version, cmp)
    ensures r.Some? ==> Optimal(r.value, u, cands, installed, d, cmp)
    ensures r.Some? ==> forall c :: c in cands <==> SteppingStone(c, h, d, installed, cmp)
  {
    var walk := Chain.WalkBetween(h.versions, installed, d.version, cmp);
    if walk.None? {
      return None, [];
    }
    var found := Candidates(h, d, installed, walk.value, cmp);
    var plan := Climb(u, found, installed, d, cmp);
    return Some(plan), found;
  }

  /** Only the migration floor stands in the way. */
  predicate FloorOnly(u: Client, d: Descriptor, installed: Option<Version>) {
    && installed.Some? && MeantFor(u, d, ORDER)
    && Permitted(u, d, installed.value, ORDER) && !Migrates(d, installed.value, ORDER)
  }

  /** Every step of a walk to d may be installed on what the step before it left,
      and unless the walk is d alone each goes up. */
  ghost predicate Steppable(u: Client, d: Descriptor, installed: Option<Version>, walk: seq<Descriptor>) {
    && walk != [] && walk[|walk| - 1] == d
    && forall i :: 0 <= i < |walk| ==> StepUp(u, installed, walk, i)
  }

  ghost predicate StepUp(u: Client, installed: Option<Version>, walk: seq<Descriptor>, i: int)
    requires 0 <= i < |walk|
  {
    var at := if i == 0 then installed else Some(walk[i - 1].version);
    MayInstall(u, walk[i], at, ORDER) && (|walk| > 1 ==> at.Some? && ORDER(walk[i].version, at.value) > 0)
  }

  lemma WalksUp(u: Client, cands: seq<Descriptor>, start: Version, d: Descriptor, walk: seq<Descriptor>)
    requires Admissible(u, cands, start, d, walk, ORDER)
    ensures Steppable(u, d, Some(start), walk)
  {
    forall i | 0 <= i < |walk|
      ensures StepUp(u, Some(start), walk, i)
    {
      assert StepAt(u, cands, start, walk, i, ORDER);
    }
  }

  /** The releases to install to reach d: d alone when it may be installed
      directly, a shortest walk of stepping stones when only its migration floor
      stands in the way, and nothing when it is refused for any other reason or
      the repository offers no unambiguous walk. */
  method PlanSteps(u: Client, d: Descriptor, installed: Option<Version>, hist: Option<History>)
    returns (r: Option<Plan>, ghost cands: seq<Descriptor>)
    requires hist.Some? ==> Honest(hist.value)
    ensures r == Some(Steps([d])) <==> MayInstall(u, d, installed, ORDER)
    ensures r.Some? && r.value.Steps? ==> Steppable(u, d, installed, r.value.walk)
    ensures r.Some? && r != Some(Steps([d])) ==>
              && FloorOnly(u, d, installed) && hist.Some?
              && (forall c :: c in cands <==> SteppingStone(c, hist.value, d, installed.value, ORDER))
              && Optimal(r.value, u, cands, installed.value, d, ORDER)
    ensures r.None? <==>
            || (!MayInstall(u, d, installed, ORDER) && !FloorOnly(u, d, installed))
            || (&& FloorOnly(u, d, installed)
                && (hist.None? || !Chain.Walkable(hist.value.versions, installed.value, d.version)))
  {
    cands := [];
    var verdict := Check(u, d, installed, ORDER);
    if verdict == Applicable {
      return Some(Steps([d])), cands;
    }
    if verdict == Refused || hist.None? {
      return None, cands;
    }
    OrderIsTotalPreorder();
    r, cands := PlanOver(u, d, installed.value, hist.value, ORDER);
    if r.Some? && r.value.Steps? {
      WalksUp(u, cands, installed.value, d, r.value.walk);
      assert StepUp(u, installed, r.value.walk, 0);
    }
  }
}
