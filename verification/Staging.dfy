/** Staging a release: each file comes from disk, from a chain of patches or from
    the network, and whichever it is, only the signed bytes stay. */
module Staging {
  import opened Bytes
  import opened PatchFormat
  import opened PatchReader
  import opened Verify
  import Route

  /** An installed file that may hold the wanted bytes: whether it looks plausible
      when first inspected, and what reading it then brings. */
  datatype Candidate = Candidate(plausible: bool, chunks: seq<seq<Byte>>, breaks: bool)

  /** One patch of a chain: whether it could be fetched, and what it must make. */
  datatype Hop = Hop(fetched: bool, patch: seq<Byte>, to: Info)

  /** A file of the release, and everything the disk and the network answer while
      it is staged: installed files, the base a chain starts from and what is
      read back of each intermediate file, and the download. */
  datatype File = File(
    info: Info,
    sources: seq<Candidate>,
    hops: seq<Hop>, bases: seq<seq<Byte>>,
    download: Candidate)

  /** The bases are files, one for each hop. */
  predicate WellPosed(f: File) {
    && |f.bases| == |f.hops| && (forall i :: 0 <= i < |f.bases| ==> |f.bases[i]| <= MAX_INT64)
    && (f.hops != [] ==> f.hops[|f.hops| - 1].to == f.info)
  }

  /** The staging of one release: the file being staged and the progress. */
  class Stager<S> {
    const hasher: Hasher<S>
    const codec: Codec
    var file: Option<seq<Byte>>
    var fileDone: nat
    var done: nat

    /** `done` counts what was staged before this file, and this attempt at it. */
    predicate Valid()
      reads this
    {
      fileDone <= done
    }

    /** What the files before this one amount to. */
    function Before(): nat
      reads this
      requires Valid()
    {
      done - fileDone
    }

    constructor (hasher: Hasher<S>, codec: Codec)
      ensures Valid() && this.hasher == hasher && this.codec == codec && done == 0 && fileDone == 0 && file.None?
    {
      this.hasher, this.codec, this.file, this.fileDone, this.done := hasher, codec, None, 0, 0;
    }

    /** The bytes of an attempt that was discarded were never staged. */
    method Begin()
      requires Valid()
      modifies this`fileDone, this`done
      ensures Valid() && Before() == old(Before()) && fileDone == 0
    {
      done := done - fileDone;
      fileDone := 0;
    }

    method Count(n: nat)
      requires Valid()
      modifies this`fileDone, this`done
      ensures Valid() && Before() == old(Before()) && fileDone == old(fileDone) + n
    {
      fileDone := fileDone + n;
      done := done + n;
    }

    /** The file holds bytes the signed metadata vouches for, and is counted. */
    ghost predicate Holds(info: Info)
      reads this
    {
      file.Some? && Verified(hasher, info, file.value) && fileDone == info.length
    }

    /** Streams bytes into a scratch file past the verifier and keeps it only if
        they verify. */
    method Keep(info: Info, chunks: seq<seq<Byte>>, breaks: bool) returns (ok: bool)
      requires Valid()
      modifies this`file, this`fileDone, this`done
      ensures Valid() && Before() == old(Before())
      ensures ok <==> !breaks && Verified(hasher, info, Flat(chunks))
      ensures ok ==> file == Some(Flat(chunks)) && Holds(info)
      ensures !ok ==> file == old(file)
    {
      Begin();
      var out;
      ok, out := VerifyStream(hasher, info, chunks, breaks);
      Count(|out|);
      if ok {
        file := Some(out);
      }
    }

    /** Tries the installed files in turn. */
    method Reuse(info: Info, sources: seq<Candidate>) returns (ok: bool)
      requires Valid()
      modifies this`file, this`fileDone, this`done
      ensures Valid() && Before() == old(Before())
      ensures ok ==> Holds(info)
      ensures !ok ==> file == old(file)
      ensures ok <==> info.length > 0 && exists i :: 0 <= i < |sources| && Serves(hasher, info, sources[i])
    {
      if info.length == 0 {
        return false;
      }
      for i := 0 to |sources|
        invariant Valid() && Before() == old(Before()) && file == old(file)
        invariant forall j :: 0 <= j < i ==> !Serves(hasher, info, sources[j])
      {
        if sources[i].plausible {
          ok := Keep(info, sources[i].chunks, sources[i].breaks);
          if ok {
            return;
          }
        }
      }
      return false;
    }

    /** Applies one patch of a chain: the bytes that came out, and whether they
        are the signed ones. */
    method Apply(base: seq<Byte>, h: Hop) returns (ok: bool, out: seq<Byte>)
      requires |base| <= MAX_INT64
      ensures ok <==> && Reconstruct(codec, base, h.patch, h.to.length).Some?
                      && Verified(hasher, h.to, Reconstruct(codec, base, h.patch, h.to.length).value)
      ensures ok ==> Some(out) == Reconstruct(codec, base, h.patch, h.to.length)
    {
      var sink := new Sink(h.to.length);
      var applied := ApplyPatchStream(codec, base, h.patch, sink, h.to.length);
      out := sink.written;
      var seen;
      ok, seen := VerifyStream(hasher, h.to, [out], !applied);
      assert [out][..0] == [] && Flat([out]) == Flat([]) + out == out;
    }

    /** The hops before the last: each writes a scratch file that is verified
        before it becomes the next base. */
    method Lead(f: File) returns (ok: bool)
      requires WellPosed(f) && f.hops != []
      ensures ok <==> forall j :: 0 <= j < |f.hops| - 1 ==> HopWorks(hasher, codec, f, j)
    {
      for i := 0 to |f.hops| - 1
        invariant forall j :: 0 <= j < i ==> HopWorks(hasher, codec, f, j)
      {
        ok := f.hops[i].fetched;
        if ok {
          var out;
          ok, out := Apply(f.bases[i], f.hops[i]);
        }
        assert ok <==> HopWorks(hasher, codec, f, i);
        if !ok {
          return;
        }
      }
      return true;
    }

    /** The last hop writes the file itself. */
    method Finish(f: File) returns (ok: bool)
      requires Valid() && WellPosed(f) && f.hops != []
      modifies this`file, this`fileDone, this`done
      ensures Valid() && Before() == old(Before())
      ensures ok <==> HopWorks(hasher, codec, f, |f.hops| - 1)
      ensures ok ==> Holds(f.info) && file == Outcome(codec, f, |f.hops| - 1)
      ensures !ok ==> file == old(file)
    {
      var n := |f.hops| - 1;
      if !f.hops[n].fetched {
        return false;
      }
      Begin();
      var out;
      ok, out := Apply(f.bases[n], f.hops[n]);
      Count(|out|);
      if ok {
        file := Some(out);
      }
    }

    /** Walks the chain. It succeeds if and only if every patch can be fetched and
        makes the signed bytes of the base it is given. */
    method Patched(f: File) returns (ok: bool)
      requires Valid() && WellPosed(f)
      modifies this`file, this`fileDone, this`done
      ensures Valid() && Before() == old(Before())
      ensures ok <==> ChainWorks(hasher, codec, f)
      ensures ok ==> Holds(f.info) && file == Outcome(codec, f, |f.hops| - 1)
      ensures !ok ==> file == old(file)
    {
      if f.hops == [] {
        return false;
      }
      ok := Lead(f);
      if ok {
        ok := Finish(f);
      }
    }

    /** Looks for the file a chain starts from: the first plausible one that holds
        the signed bytes. Nothing is written or counted. */
    method LocalBase(info: Info, sources: seq<Candidate>) returns (base: Option<seq<Byte>>)
      ensures base.Some? <==> info.length > 0 && exists i :: 0 <= i < |sources| && Serves(hasher, info, sources[i])
      ensures base.Some? ==>
                exists i :: 0 <= i < |sources| && Serves(hasher, info, sources[i]) && base.value == Flat(sources[i].chunks)
    {
      if info.length == 0 {
        return None;
      }
      for i := 0 to |sources|
        invariant forall j :: 0 <= j < i ==> !Serves(hasher, info, sources[j])
      {
        if sources[i].plausible {
          var ok, out := VerifyStream(hasher, info, sources[i].chunks, sources[i].breaks);
          if ok {
            return Some(out);
          }
        }
      }
      return None;
    }

    /** The way of a patched file: a chain across its lineage, taken if it costs
        less than the file and some installed file still holds what it starts from.
        Where each published patch makes what it names, only the target comes of
        it, exactly when every patch of the chain can be fetched. Where the costs
        fit, that chain is the cheapest. */
    method AlongRoute(repo: Route.Repository, lineage: seq<string>, target: string, sources: seq<Candidate>, shelf: Shelf)
      returns (ok: bool, ghost path: seq<nat>)
      requires Valid()
      requires Stocked(hasher, codec, shelf, repo, lineage) && Genuine(hasher, shelf, lineage, sources)
      modifies this`file, this`fileDone, this`done
      ensures Valid() && Before() == old(Before())
      ensures ok ==> file == Some(shelf.payload(target)) && Holds(shelf.signed(target))
      ensures ok <==> && Leads(lineage, target) && Taken(repo, lineage, path, shelf.signed(target).length)
                      && Based(hasher, shelf, lineage, sources) && Fetchable(repo, lineage, shelf, path)
      ensures Leads(lineage, target) && Route.Fits(repo, lineage) ==>
                && (Taken(repo, lineage, path, shelf.signed(target).length) <==>
                    Worthwhile(repo, lineage, shelf.signed(target).length))
                && (Reaches(repo, lineage, path) ==> Cheapest(repo, lineage, path))
      ensures !ok ==> file == old(file)
    {
      path := [];
      if |lineage| < 2 || lineage[|lineage| - 1] != target {
        return false, path;
      }
      var hops;
      hops, path := Choose(repo, lineage, shelf.signed(target).length);
      if hops.None? {
        return false, path;
      }
      var base := LocalBase(shelf.signed(lineage[0]), sources);
      if base.None? {
        return false, path;
      }
      var at := Indices(repo, lineage, hops.value, path);
      var f := FileOf(shelf, lineage, base.value, hops.value, at);
      RouteWorks(hasher, codec, shelf, repo, lineage, path, hops.value, f);
      ok := Patched(f);
    }

    /** Stages one file. Whatever the disk and the network held, a success leaves
        verified bytes, and the progress stands at exactly the signed lengths. */
    method StageFile(f: File) returns (ok: bool)
      requires Valid() && WellPosed(f)
      modifies this`file, this`fileDone, this`done
      ensures Valid()
      ensures ok ==> file.Some? && Verified(hasher, f.info, file.value) && done == old(done) + f.info.length
      ensures !ok ==> file.None?
      ensures ok <==>
                || (f.info.length > 0 && exists i :: 0 <= i < |f.sources| && Serves(hasher, f.info, f.sources[i]))
                || ChainWorks(hasher, codec, f)
                || (!f.download.breaks && Verified(hasher, f.info, Flat(f.download.chunks)))
    {
      file, fileDone := None, 0;
      ok := Reuse(f.info, f.sources);
      if !ok {
        ok := Patched(f);
        if !ok {
          ok := Keep(f.info, f.download.chunks, f.download.breaks);
        }
      }
    }

    /** Stages a release, file by file, stopping at the first that fails. */
    method Stage(files: seq<File>) returns (ok: bool, staged: seq<seq<Byte>>)
      requires Valid() && done == 0 && forall i :: 0 <= i < |files| ==> WellPosed(files[i])
      modifies this`file, this`fileDone, this`done
      ensures |staged| <= |files|
      ensures forall i :: 0 <= i < |staged| ==> Verified(hasher, files[i].info, staged[i])
      ensures ok <==> |staged| == |files|
      ensures ok ==> done == Total(files)
    {
      staged := [];
      for i := 0 to |files|
        invariant Valid() && |staged| == i && done == Total(files[..i])
        invariant forall j :: 0 <= j < i ==> Verified(hasher, files[j].info, staged[j])
      {
        ok := StageFile(files[i]);
        if !ok {
          return;
        }
        staged := staged + [file.value];
        assert files[..i + 1][..i] == files[..i];
      }
      assert files[..|files|] == files;
      return true, staged;
    }
  }

  ghost predicate Serves<S>(h: Hasher<S>, info: Info, c: Candidate) {
    c.plausible && !c.breaks && Verified(h, info, Flat(c.chunks))
  }

  /** How much progress a whole release is. */
  function Total(files: seq<File>): nat {
    if files == [] then 0 else Total(files[..|files| - 1]) + files[|files| - 1].info.length
  }

  /** What the patch of one hop makes of the base it is given. */
  function Outcome(c: Codec, f: File, i: int): Option<seq<Byte>>
    requires 0 <= i < |f.hops| && |f.bases| == |f.hops|
  {
    Reconstruct(c, f.bases[i], f.hops[i].patch, f.hops[i].to.length)
  }

  ghost predicate HopWorks<S>(h: Hasher<S>, c: Codec, f: File, i: int)
    requires 0 <= i < |f.hops| && |f.bases| == |f.hops|
  {
    f.hops[i].fetched && Outcome(c, f, i).Some? && Verified(h, f.hops[i].to, Outcome(c, f, i).value)
  }

  ghost predicate ChainWorks<S>(h: Hasher<S>, c: Codec, f: File)
    requires WellPosed(f)
  {
    f.hops != [] && forall i :: 0 <= i < |f.hops| ==> HopWorks(h, c, f, i)
  }

  // A route along patches the delta compiler made.

  /** What a repository publishes: the bytes behind each payload and each patch,
      which patches the network brings, and what is signed about the payloads. */
  datatype Shelf = Shelf(
    payload: string -> seq<Byte>,
    patch: string -> seq<Byte>,
    fetched: string -> bool,
    signed: string -> Info)

  /** Payloads are what was signed, and each published patch makes the later of the
      two it names of the earlier. */
  ghost predicate Stocked<S>(h: Hasher<S>, c: Codec, shelf: Shelf, repo: Route.Repository, lineage: seq<string>) {
    && (forall i :: 0 <= i < |lineage| ==> Sound(h, shelf, lineage[i]))
    && (forall i: nat, j: nat :: i < j < |lineage| ==> Linked(c, shelf, repo, lineage, i, j))
  }

  ghost predicate Sound<S>(h: Hasher<S>, shelf: Shelf, t: string) {
    && Verified(h, shelf.signed(t), shelf.payload(t)) && 0 < |shelf.payload(t)| <= MAX_INT64
  }

  ghost predicate Linked(c: Codec, shelf: Shelf, repo: Route.Repository, lineage: seq<string>, i: nat, j: nat)
    requires i < j < |lineage|
  {
    Route.Edge(repo, lineage, i, j).Some? ==>
      Turns(c, shelf.payload(lineage[i]), shelf.payload(lineage[j]),
            shelf.patch(repo.patchPath(lineage[i], lineage[j]).value))
  }

  /** An installed file that verifies as the start of the lineage is that payload. */
  ghost predicate Genuine<S>(h: Hasher<S>, shelf: Shelf, lineage: seq<string>, sources: seq<Candidate>) {
    lineage != [] ==>
      forall i :: 0 <= i < |sources| && Serves(h, shelf.signed(lineage[0]), sources[i]) ==>
        Flat(sources[i].chunks) == shelf.payload(lineage[0])
  }

  /** The lineage comes to this target from another. */
  predicate Leads(lineage: seq<string>, target: string) {
    |lineage| >= 2 && lineage[|lineage| - 1] == target
  }

  /** Some installed file still holds what the lineage starts from. */
  ghost predicate Based<S>(h: Hasher<S>, shelf: Shelf, lineage: seq<string>, sources: seq<Candidate>)
    requires lineage != []
  {
    exists i :: 0 <= i < |sources| && Serves(h, shelf.signed(lineage[0]), sources[i])
  }

  /** Every patch of a chain can be fetched. */
  ghost predicate Fetchable(repo: Route.Repository, lineage: seq<string>, shelf: Shelf, p: seq<nat>) {
    forall k: nat :: k + 1 < |p| ==> Brought(repo, lineage, shelf, p, k)
  }

  ghost predicate Brought(repo: Route.Repository, lineage: seq<string>, shelf: Shelf, p: seq<nat>, k: nat)
    requires k + 1 < |p|
  {
    && p[k] < |lineage| && p[k + 1] < |lineage|
    && match repo.patchPath(lineage[p[k]], lineage[p[k + 1]])
       case None => false
       case Some(patch) => shelf.fetched(patch)
  }

  ghost predicate Reaches(repo: Route.Repository, lineage: seq<string>, p: seq<nat>) {
    Route.IsPath(repo, lineage, p) && Route.End(p) == |lineage| - 1
  }

  /** The chain goes all the way for less than the file, as its cost is computed. */
  ghost predicate Taken(repo: Route.Repository, lineage: seq<string>, p: seq<nat>, size: nat) {
    Reaches(repo, lineage, p) && WrapInt64(Route.CostOf(repo, lineage, p)) < size
  }

  /** A chain to the end of the lineage that none undercuts. */
  ghost predicate Cheapest(repo: Route.Repository, lineage: seq<string>, p: seq<nat>) {
    && Reaches(repo, lineage, p)
    && forall q :: Reaches(repo, lineage, q) ==> Route.CostOf(repo, lineage, p) <= Route.CostOf(repo, lineage, q)
  }

  /** Some chain across the lineage costs less than the file. */
  ghost predicate Worthwhile(repo: Route.Repository, lineage: seq<string>, size: nat) {
    exists q :: Reaches(repo, lineage, q) && Route.CostOf(repo, lineage, q) < size
  }

  /** The chain that is taken, if one is. */
  method Choose(repo: Route.Repository, lineage: seq<string>, size: nat)
    returns (hops: Option<seq<Route.Hop>>, ghost path: seq<nat>)
    requires lineage != []
    ensures hops.Some? <==> Taken(repo, lineage, path, size)
    ensures hops.Some? ==> Route.Follows(repo, lineage, path, hops.value)
    ensures Route.Fits(repo, lineage) ==>
              && (hops.Some? <==> Worthwhile(repo, lineage, size))
              && (Reaches(repo, lineage, path) ==> Cheapest(repo, lineage, path))
  {
    var total;
    hops, total, path := Route.Cheapest(repo, lineage);
    if hops.None? || total >= size {
      return None, path;
    }
  }

  /** Which payload each hop starts from: the one the hop before it made. */
  method Indices(repo: Route.Repository, lineage: seq<string>, hops: seq<Route.Hop>, ghost path: seq<nat>)
    returns (at: seq<string>)
    requires lineage != [] && Route.Follows(repo, lineage, path, hops)
    ensures |at| == |hops| && forall k: nat :: k < |hops| ==> at[k] == lineage[path[k]]
  {
    at := [];
    for k := 0 to |hops|
      invariant |at| == k && forall j: nat :: j < k ==> at[j] == lineage[path[j]]
    {
      assert k > 0 ==> Route.IsHop(repo, lineage, path, k - 1, hops[k - 1]);
      at := at + [if k == 0 then lineage[0] else hops[k - 1].to];
    }
  }

  function FileOf(shelf: Shelf, lineage: seq<string>, base: seq<Byte>, hops: seq<Route.Hop>, at: seq<string>): File
    requires lineage != [] && |at| == |hops|
  {
    File(shelf.signed(lineage[|lineage| - 1]), [],
         seq(|hops|, k requires 0 <= k < |hops| => HopOf(shelf, hops[k])),
         seq(|hops|, k requires 0 <= k < |hops| => if k == 0 then base else shelf.payload(at[k])),
         Candidate(false, [], true))
  }

  function HopOf(shelf: Shelf, h: Route.Hop): Hop {
    Hop(shelf.fetched(h.patch), shelf.patch(h.patch), shelf.signed(h.to))
  }

  /** Every hop of such a route that can be fetched makes the signed bytes, and the
      last the target. */
  lemma RouteWorks<S>(h: Hasher<S>, c: Codec, shelf: Shelf, repo: Route.Repository, lineage: seq<string>, path: seq<nat>,
                      hops: seq<Route.Hop>, f: File)
    requires |lineage| >= 2 && Stocked(h, c, shelf, repo, lineage)
    requires Route.Follows(repo, lineage, path, hops) && Route.End(path) == |lineage| - 1
    requires |f.hops| == |f.bases| == |hops| && f.info == shelf.signed(lineage[|lineage| - 1])
    requires forall k: nat :: k < |hops| ==>
               f.bases[k] == shelf.payload(lineage[path[k]]) && f.hops[k] == HopOf(shelf, hops[k])
    ensures WellPosed(f)
    ensures ChainWorks(h, c, f) <==> Fetchable(repo, lineage, shelf, path)
    ensures Outcome(c, f, |f.hops| - 1) == Some(shelf.payload(lineage[|lineage| - 1]))
  {
    forall k: nat | k < |hops|
      ensures LegIsRight(h, c, shelf, repo, lineage, path, f, k)
    {
      LegWorks(h, c, shelf, repo, lineage, path, hops, f, k);
    }
    assert |path| >= 2;
    assert Route.IsHop(repo, lineage, path, |hops| - 1, hops[|hops| - 1]);
    LegsWork(h, c, shelf, repo, lineage, path, f);
  }

  /** Legs that are right make a chain that is. */
  lemma LegsWork<S>(h: Hasher<S>, c: Codec, shelf: Shelf, repo: Route.Repository, lineage: seq<string>, path: seq<nat>, f: File)
    requires |f.hops| == |f.bases| == |path| - 1 > 0 && path[|path| - 1] == |lineage| - 1
    requires f.hops[|f.hops| - 1].to == f.info
    requires forall k: nat :: k < |f.hops| ==> LegIsRight(h, c, shelf, repo, lineage, path, f, k)
    ensures WellPosed(f)
    ensures ChainWorks(h, c, f) <==> Fetchable(repo, lineage, shelf, path)
    ensures Outcome(c, f, |f.hops| - 1) == Some(shelf.payload(lineage[|lineage| - 1]))
  {
    assert LegIsRight(h, c, shelf, repo, lineage, path, f, |f.hops| - 1);
    forall i | 0 <= i < |f.bases|
      ensures |f.bases[i]| <= MAX_INT64
    {
      assert LegIsRight(h, c, shelf, repo, lineage, path, f, i);
    }
    if Fetchable(repo, lineage, shelf, path) {
      forall i | 0 <= i < |f.hops|
        ensures HopWorks(h, c, f, i)
      {
        assert LegIsRight(h, c, shelf, repo, lineage, path, f, i);
        assert Brought(repo, lineage, shelf, path, i);
      }
    }
    if ChainWorks(h, c, f) {
      forall k: nat | k + 1 < |path|
        ensures Brought(repo, lineage, shelf, path, k)
      {
        assert LegIsRight(h, c, shelf, repo, lineage, path, f, k);
        assert HopWorks(h, c, f, k);
      }
    }
  }

  /** One hop of a route: it works if and only if its patch can be fetched, and
      what it makes is the payload the route comes to next. */
  ghost predicate LegIsRight<S>(h: Hasher<S>, c: Codec, shelf: Shelf, repo: Route.Repository, lineage: seq<string>,
                                path: seq<nat>, f: File, k: nat)
    requires k < |f.hops| == |f.bases| == |path| - 1
  {
    && |f.bases[k]| <= MAX_INT64 && path[k + 1] < |lineage|
    && (HopWorks(h, c, f, k) <==> Brought(repo, lineage, shelf, path, k))
    && Outcome(c, f, k) == Some(shelf.payload(lineage[path[k + 1]]))
  }

  lemma LegWorks<S>(h: Hasher<S>, c: Codec, shelf: Shelf, repo: Route.Repository, lineage: seq<string>, path: seq<nat>,
                    hops: seq<Route.Hop>, f: File, k: nat)
    requires Stocked(h, c, shelf, repo, lineage) && Route.Follows(repo, lineage, path, hops)
    requires |f.hops| == |f.bases| == |hops| && k < |hops|
    requires f.bases[k] == shelf.payload(lineage[path[k]]) && f.hops[k] == HopOf(shelf, hops[k])
    ensures LegIsRight(h, c, shelf, repo, lineage, path, f, k)
  {
    assert Route.Leg(repo, lineage, path, k) && Route.IsHop(repo, lineage, path, k, hops[k]);
    var from, to := lineage[path[k]], lineage[path[k + 1]];
    assert Sound(h, shelf, from) && Sound(h, shelf, to) && Linked(c, shelf, repo, lineage, path[k], path[k + 1]);
  }
}
