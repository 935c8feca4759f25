/** The verdict on a stream: exactly the signed bytes, however they arrive. */
module Verify {
  import opened Bytes

  type Digest = seq<Byte>

  /** What is signed about a target. */
  datatype Info = Info(length: nat, hashes: map<string, Digest>)

  const KNOWN := {"sha256", "sha512"}

  /** The hash functions, one byte at a time. */
  datatype Hasher<!S> = Hasher(init: string -> S, step: (string, S, Byte) -> S, sum: (string, S) -> Digest)

  function Fold<S>(h: Hasher<S>, alg: string, s: S, p: seq<Byte>): S
    decreases |p|
  {
    if p == [] then s else Fold(h, alg, h.step(alg, s, p[0]), p[1..])
  }

  lemma {:induction false} FoldConcat<S>(h: Hasher<S>, alg: string, s: S, a: seq<Byte>, b: seq<Byte>)
    ensures Fold(h, alg, s, a + b) == Fold(h, alg, Fold(h, alg, s, a), b)
    decreases |a|
  {
    if a == [] {
      assert a + b == b;
    } else {
      assert (a + b)[0] == a[0] && (a + b)[1..] == a[1..] + b;
      FoldConcat(h, alg, h.step(alg, s, a[0]), a[1..], b);
    }
  }

  function DigestOf<S>(h: Hasher<S>, alg: string, p: seq<Byte>): Digest {
    h.sum(alg, Fold(h, alg, h.init(alg), p))
  }

  /** Some digest is signed, and every signed one can be computed. */
  predicate Checkable(info: Info) {
    info.hashes != map[] && info.hashes.Keys <= KNOWN
  }

  /** Exactly the signed bytes: the length, and every signed digest, of which there
      is one at least and none of another kind than these two. */
  ghost predicate Verified<S>(h: Hasher<S>, info: Info, p: seq<Byte>) {
    && info.hashes != map[] && |p| == info.length
    && (forall alg :: alg in info.hashes ==>
          (alg == "sha256" || alg == "sha512") && DigestOf(h, alg, p) == info.hashes[alg])
  }

  /** Bytes up to the signed length. */
  function Within(info: Info, p: seq<Byte>): seq<Byte> {
    if |p| <= info.length then p else p[..info.length]
  }

  class Verifier<S> {
    const hasher: Hasher<S>
    const info: Info
    var states: map<string, S>
    var n: nat
    var over: bool
    ghost var seen: seq<Byte>  // everything written so far

    ghost predicate Valid()
      reads this
    {
      && n == |Within(info, seen)| && (over <==> |seen| > info.length)
      && states.Keys == info.hashes.Keys
      && (forall alg :: alg in states ==>
            states[alg] == Fold(hasher, alg, hasher.init(alg), Within(info, seen)))
    }

    constructor (hasher: Hasher<S>, info: Info)
      ensures Valid() && this.hasher == hasher && this.info == info && seen == []
    {
      this.hasher, this.info, this.n, this.over, this.seen := hasher, info, 0, false, [];
      this.states := map alg | alg in info.hashes :: hasher.init(alg);
    }

    /** Feeds the next bytes. Those past the signed length are not hashed: there
        is no verdict they could change. */
    method Write(p: seq<Byte>) returns (taken: nat)
      requires Valid()
      modifies this
      ensures Valid() && seen == old(seen) + p
      ensures taken == |p| <==> |seen| <= info.length || |p| == 0
    {
      var room := info.length - n;
      var q := p;
      if |p| > room {
        over := true;
        q := p[..room];
      }
      assert Within(info, seen + p) == Within(info, seen) + q;
      forall alg | alg in states
        ensures Fold(hasher, alg, states[alg], q) == Fold(hasher, alg, hasher.init(alg), Within(info, seen) + q)
      {
        FoldConcat(hasher, alg, hasher.init(alg), Within(info, seen), q);
      }
      states := map alg | alg in states :: Fold(hasher, alg, states[alg], q);
      n := n + |q|;
      seen := seen + p;
      taken := |q|;
    }

    method Verdict() returns (ok: bool)
      requires Valid() && Checkable(info)
      ensures ok <==> Verified(hasher, info, seen)
    {
      if over || n != info.length {
        return false;
      }
      var todo := info.hashes.Keys;
      while todo != {}
        invariant todo <= info.hashes.Keys
        invariant forall alg :: alg in info.hashes && alg !in todo ==> DigestOf(hasher, alg, seen) == info.hashes[alg]
        decreases |todo|
      {
        var alg :| alg in todo;
        if hasher.sum(alg, states[alg]) != info.hashes[alg] {
          return false;
        }
        todo := todo - {alg};
      }
      return true;
    }
  }

  function Flat(chunks: seq<seq<Byte>>): seq<Byte> {
    if chunks == [] then [] else Flat(chunks[..|chunks| - 1]) + chunks[|chunks| - 1]
  }

  lemma FlatNext(chunks: seq<seq<Byte>>, i: nat)
    requires i < |chunks|
    ensures Flat(chunks[..i + 1]) == Flat(chunks[..i]) + chunks[i]
  {
    assert chunks[..i + 1][..i] == chunks[..i];
  }

  lemma {:induction false} FlatGrows(chunks: seq<seq<Byte>>, i: nat)
    requires i <= |chunks|
    ensures Flat(chunks[..i]) <= Flat(chunks)
    decreases |chunks| - i
  {
    if i < |chunks| {
      FlatNext(chunks, i);
      FlatGrows(chunks, i + 1);
    } else {
      assert chunks[..i] == chunks;
    }
  }

  /** Copies a stream that arrives in chunks past the verifier, one byte beyond
      the signed length at most. `out` is what came by, on its way to the file.
      The verdict depends on the bytes alone, not on how they were cut. */
  method VerifyStream<S>(h: Hasher<S>, info: Info, chunks: seq<seq<Byte>>, breaks: bool) returns (ok: bool, out: seq<Byte>)
    ensures ok <==> !breaks && Verified(h, info, Flat(chunks))
    ensures ok ==> out == Flat(chunks)
    ensures out <= Flat(chunks) && |out| <= info.length + 1
  {
    out := [];
    if !Checkable(info) {
      return false, out;
    }
    var v := new Verifier(h, info);
    for i := 0 to |chunks|
      invariant v.Valid() && fresh(v) && v.hasher == h && v.info == info
      invariant out == v.seen == Flat(chunks[..i]) && |out| <= info.length
    {
      FlatNext(chunks, i);
      FlatGrows(chunks, i + 1);
      var room := info.length + 1 - |out|;
      var chunk := if |chunks[i]| <= room then chunks[i] else chunks[i][..room];
      var taken := v.Write(chunk);
      out := out + chunk;
      if taken != |chunk| {
        return false, out;
      }
    }
    assert chunks[..|chunks|] == chunks;
    if breaks {
      return false, out;
    }
    ok := v.Verdict();
  }
}
