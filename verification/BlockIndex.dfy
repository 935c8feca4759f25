/** The anchor index of the delta matcher: a rolling polynomial hash over blocks
    and an open-addressed table with linear probing. */
module BlockIndex {
  import opened Bytes

  const BLOCK_SIZE := 64
  const HASH_BASE: nat := 0x100_0000_01b3

  function Power(b: nat, k: nat): nat {
    if k == 0 then 1 else Power(b, k - 1) * b
  }

  /** The polynomial of a block in HASH_BASE, before any reduction. */
  function Polynomial(s: seq<Byte>): nat {
    if s == [] then 0 else Polynomial(s[..|s| - 1]) * HASH_BASE + s[|s| - 1]
  }

  /** The hash of a block: the polynomial modulo 2^64. */
  function Hash(s: seq<Byte>): (h: nat)
    ensures h < TWO64
  {
    Polynomial(s) % TWO64
  }

  lemma ModuloAbsorbs(x: int, k: int)
    ensures (x + TWO64 * k) % TWO64 == x % TWO64
  {
    var q, r := x / TWO64, x % TWO64;
    assert x + TWO64 * k == TWO64 * (q + k) + r;
  }

  lemma ModuloOfProductSum(x: nat, b: nat, y: nat)
    ensures ((x % TWO64) * b + y) % TWO64 == (x * b + y) % TWO64
  {
    var q, r := x / TWO64, x % TWO64;
    assert x == TWO64 * q + r;
    assert x * b + y == (r * b + y) + TWO64 * (q * b);
    ModuloAbsorbs(r * b + y, q * b);
  }

  method RollingHash(block: seq<Byte>) returns (h: nat)
    ensures h == Hash(block)
  {
    h := 0;
    for i := 0 to |block|
      invariant h == Hash(block[..i])
    {
      assert block[..i + 1][..i] == block[..i];
      ModuloOfProductSum(Polynomial(block[..i]), HASH_BASE, block[i]);
      h := (h * HASH_BASE + block[i]) % TWO64;
    }
    assert block[..|block|] == block;
  }

  /** The factor the oldest byte of a window carries in its hash. */
  method HashPow() returns (p: nat)
    ensures p == Power(HASH_BASE, BLOCK_SIZE - 1) % TWO64
  {
    p := 1;
    for i := 0 to BLOCK_SIZE - 1
      invariant p == Power(HASH_BASE, i) % TWO64
    {
      ModuloOfProductSum(Power(HASH_BASE, i), HASH_BASE, 0);
      p := p * HASH_BASE % TWO64;
    }
  }

  /** The hash of a window after one byte has left it and another joined. */
  function Roll(h: nat, pow: nat, leaving: Byte, joining: Byte): nat {
    ((h - leaving * pow) * HASH_BASE + joining) % TWO64
  }

  lemma {:induction false} PolynomialFromTheFront(a: Byte, s: seq<Byte>)
    ensures Polynomial([a] + s) == a * Power(HASH_BASE, |s|) + Polynomial(s)
  {
    if s == [] {
      assert [a] + s == [a];
      assert [a][..0] == [];
    } else {
      var front, x := s[..|s| - 1], s[|s| - 1];
      PolynomialFromTheFront(a, front);
      assert ([a] + s)[..|s|] == [a] + front;
      assert Polynomial([a] + s) == Polynomial([a] + front) * HASH_BASE + x;
      var p := Power(HASH_BASE, |front|);
      assert (a * p + Polynomial(front)) * HASH_BASE == a * (p * HASH_BASE) + Polynomial(front) * HASH_BASE;
    }
  }

  /** Rolling is rehashing: the rolled value is the hash of the new window. */
  lemma RollIsRehash(a: Byte, s: seq<Byte>, b: Byte, pow: nat)
    requires |s| == BLOCK_SIZE - 1
    requires pow == Power(HASH_BASE, BLOCK_SIZE - 1) % TWO64
    ensures Roll(Hash([a] + s), pow, a, b) == Hash(s + [b])
  {
    var full, exact := Polynomial([a] + s), Power(HASH_BASE, BLOCK_SIZE - 1);
    PolynomialFromTheFront(a, s);
    var h := Hash([a] + s);
    var k1, k2 := full / TWO64, exact / TWO64;
    assert h == full - TWO64 * k1 && pow == exact - TWO64 * k2;
    RollUnwinds(a, exact, Polynomial(s), b, k1, k2);
    assert (s + [b])[..|s|] == s;
  }

  lemma RollUnwinds(a: int, exact: int, rest: int, b: int, k1: int, k2: int)
    ensures ((a * exact + rest - TWO64 * k1 - a * (exact - TWO64 * k2)) * HASH_BASE + b) % TWO64
         == (rest * HASH_BASE + b) % TWO64
  {
    var k := a * k2 - k1;
    assert a * (exact - TWO64 * k2) == a * exact - TWO64 * (a * k2);
    assert a * exact + rest - TWO64 * k1 - a * (exact - TWO64 * k2) == rest + TWO64 * k;
    assert (rest + TWO64 * k) * HASH_BASE + b == (rest * HASH_BASE + b) + TWO64 * (k * HASH_BASE);
    ModuloAbsorbs(rest * HASH_BASE + b, k * HASH_BASE);
  }

  // What the table stands for.

  function Block(older: seq<Byte>, k: nat): seq<Byte>
    requires (k + 1) * BLOCK_SIZE <= |older|
  {
    older[k * BLOCK_SIZE..(k + 1) * BLOCK_SIZE]
  }

  /** Where a hash first occurs among those of the blocks so far. */
  function First(keys: seq<nat>, h: nat): (r: Option<nat>) {
    if keys == [] then None
    else
      var n := |keys| - 1;
      var before := First(keys[..n], h);
      if before.Some? then before else if keys[n] == h then Some(n) else None
  }

  /** First names the smallest such block, and is silent only when there is
      none. */
  lemma {:induction false} FirstIsSmallest(keys: seq<nat>, h: nat)
    ensures First(keys, h).None? ==> forall k :: 0 <= k < |keys| ==> keys[k] != h
    ensures First(keys, h).Some? ==>
              && First(keys, h).value < |keys| && keys[First(keys, h).value] == h
              && forall k :: 0 <= k < First(keys, h).value ==> keys[k] != h
    decreases |keys|
  {
    if keys != [] {
      FirstIsSmallest(keys[..|keys| - 1], h);
    }
  }

  /** The keys are the hashes of the first blocks of older. */
  ghost predicate Hashed(keys: seq<nat>, older: seq<Byte>) {
    && |keys| * BLOCK_SIZE <= |older|
    && forall k: nat :: k < |keys| ==> keys[k] == Hash(Block(older, k))
  }

  // The probe sequence.

  function NextSlot(slot: nat, size: nat): (r: nat)
    requires slot < size
    ensures r < size
  {
    if slot + 1 == size then 0 else slot + 1
  }

  /** How many probes lead from one slot to another. */
  function Probes(home: nat, slot: nat, size: nat): (d: nat)
    requires home < size && slot < size
    ensures d < size
  {
    if home <= slot then slot - home else slot - home + size
  }

  function Home(h: nat, size: nat): (r: nat)
    requires size > 0
    ensures r < size
  {
    h % size
  }

  predicate Filled(starts: seq<int>, slot: nat) {
    slot < |starts| && starts[slot] != 0
  }

  ghost function FilledSlots(starts: seq<int>): set<nat> {
    set s: nat | s < |starts| && Filled(starts, s)
  }

  /** Every slot a probe from home passes on its way to `slot` is taken, and by
      something other than h. */
  ghost predicate Passes(hashes: seq<nat>, starts: seq<int>, slot: nat, h: nat)
    requires |hashes| == |starts| > 0 && slot < |starts|
  {
    forall t: nat | t < |starts| && Probes(Home(h, |starts|), t, |starts|) < Probes(Home(h, |starts|), slot, |starts|) ::
      Filled(starts, t) && hashes[t] != h
  }

  /** What a filled slot says is where its hash first occurs. */
  ghost predicate Sound(hashes: seq<nat>, starts: seq<int>, keys: seq<nat>)
    requires |hashes| == |starts|
  {
    forall s: nat | Filled(starts, s) :: Says(starts[s], First(keys, hashes[s]))
  }

  predicate Says(start: int, first: Option<nat>) {
    first.Some? && start == first.value * BLOCK_SIZE + 1
  }

  /** A filled slot is found by probing for its hash. */
  ghost predicate Reachable(hashes: seq<nat>, starts: seq<int>)
    requires |hashes| == |starts| > 0
  {
    forall s: nat | Filled(starts, s) :: Passes(hashes, starts, s, hashes[s])
  }

  ghost predicate Holds(hashes: seq<nat>, starts: seq<int>, h: nat)
    requires |hashes| == |starts|
  {
    exists s: nat :: Filled(starts, s) && hashes[s] == h
  }

  /** Every hash that occurs is in the table. */
  ghost predicate Complete(hashes: seq<nat>, starts: seq<int>, keys: seq<nat>)
    requires |hashes| == |starts|
  {
    forall h: nat | First(keys, h).Some? :: Holds(hashes, starts, h)
  }

  /** The table holds exactly the first occurrences of the keys, each reachable
      from its home slot. */
  ghost predicate Indexes(hashes: seq<nat>, starts: seq<int>, keys: seq<nat>) {
    && |hashes| == |starts| > 0
    && Sound(hashes, starts, keys)
    && Reachable(hashes, starts)
    && Complete(hashes, starts, keys)
    && |FilledSlots(starts)| <= |keys|
  }

  lemma {:induction false} CountBelow(n: nat, all: set<nat>)
    requires forall s: nat :: s in all <==> s < n
    ensures |all| == n
  {
    if n == 0 {
      assert all == {};
    } else {
      CountBelow(n - 1, all - {n - 1});
    }
  }

  lemma EmptySlotExists(starts: seq<int>) returns (e: nat)
    requires |FilledSlots(starts)| < |starts|
    ensures e < |starts| && !Filled(starts, e)
  {
    if forall s: nat | s < |starts| :: Filled(starts, s) {
      CountBelow(|starts|, FilledSlots(starts));
      assert false;
    }
    e :| e < |starts| && !Filled(starts, e);
  }

  /** A probe that met an empty slot before meeting h proves h absent. */
  lemma AbsentBeyondEmpty(hashes: seq<nat>, starts: seq<int>, keys: seq<nat>, slot: nat, h: nat)
    requires Indexes(hashes, starts, keys)
    requires slot < |starts| && !Filled(starts, slot)
    requires Passes(hashes, starts, slot, h)
    ensures !Holds(hashes, starts, h)
    ensures First(keys, h) == None
  {
    forall t: nat | Filled(starts, t)
      ensures hashes[t] != h
    {
      assert Passes(hashes, starts, t, hashes[t]);
    }
  }

  /** One more block: its hash is first seen there unless it was seen before, and
      no other hash is affected. */
  lemma FirstAfter(keys: seq<nat>, h: nat, g: nat)
    ensures First(keys + [h], g)
            == if First(keys, g).Some? || g != h then First(keys, g) else Some(|keys|)
  {
    assert (keys + [h])[..|keys|] == keys;
  }

  /** One probe further, with an empty slot still ahead. */
  lemma PassesNext(hashes: seq<nat>, starts: seq<int>, slot: nat, h: nat, empty: nat)
    requires |hashes| == |starts| > 0 && slot < |starts| && empty < |starts|
    requires Filled(starts, slot) && hashes[slot] != h && !Filled(starts, empty)
    requires Passes(hashes, starts, slot, h)
    requires Probes(Home(h, |starts|), slot, |starts|) <= Probes(Home(h, |starts|), empty, |starts|)
    ensures var next := NextSlot(slot, |starts|);
            && Passes(hashes, starts, next, h)
            && Probes(Home(h, |starts|), slot, |starts|) < Probes(Home(h, |starts|), next, |starts|)
            && Probes(Home(h, |starts|), next, |starts|) <= Probes(Home(h, |starts|), empty, |starts|)
  {
  }

  lemma InsertKeepsSound(hashes: seq<nat>, starts: seq<int>, keys: seq<nat>, slot: nat, h: nat, v: int)
    requires |hashes| == |starts| && slot < |starts| && v == |keys| * BLOCK_SIZE + 1
    requires Sound(hashes, starts, keys) && First(keys, h).None?
    ensures Sound(hashes[slot := h], starts[slot := v], keys + [h])
  {
    var hs, ss := hashes[slot := h], starts[slot := v];
    forall s: nat | Filled(ss, s)
      ensures Says(ss[s], First(keys + [h], hs[s]))
    {
      FirstAfter(keys, h, hs[s]);
      assert s != slot ==> Filled(starts, s);
    }
  }

  lemma InsertKeepsReachable(hashes: seq<nat>, starts: seq<int>, slot: nat, h: nat, v: int)
    requires |hashes| == |starts| > 0 && slot < |starts| && v != 0
    requires Reachable(hashes, starts) && !Filled(starts, slot) && !Holds(hashes, starts, h)
    requires Passes(hashes, starts, slot, h)
    ensures Reachable(hashes[slot := h], starts[slot := v])
  {
    var hs, ss := hashes[slot := h], starts[slot := v];
    forall s: nat | Filled(ss, s)
      ensures Passes(hs, ss, s, hs[s])
    {
      if s == slot {
        assert Passes(hashes, starts, slot, h);
      } else {
        assert Filled(starts, s) && Passes(hashes, starts, s, hashes[s]) && hashes[s] != h;
      }
      forall t: nat | t < |ss| && Probes(Home(hs[s], |ss|), t, |ss|) < Probes(Home(hs[s], |ss|), s, |ss|)
        ensures Filled(ss, t) && hs[t] != hs[s]
      {
        if t != slot {
          assert Filled(starts, t) && hashes[t] != hs[s];
        }
      }
    }
  }

  lemma InsertKeepsComplete(hashes: seq<nat>, starts: seq<int>, keys: seq<nat>, slot: nat, h: nat, v: int)
    requires |hashes| == |starts| && slot < |starts| && v != 0
    requires !Filled(starts, slot) && Complete(hashes, starts, keys)
    ensures Complete(hashes[slot := h], starts[slot := v], keys + [h])
  {
    var hs, ss := hashes[slot := h], starts[slot := v];
    forall g: nat {:trigger Holds(hs, ss, g)} | First(keys + [h], g).Some?
      ensures Holds(hs, ss, g)
    {
      FirstAfter(keys, h, g);
      if g == h {
        assert Filled(ss, slot) && hs[slot] == g;
      } else {
        assert Holds(hashes, starts, g);
        var s: nat :| Filled(starts, s) && hashes[s] == g;
        assert Filled(ss, s) && hs[s] == g;
      }
    }
  }

  /** Filling the slot a probe for h stopped at keeps the table an index. */
  lemma InsertKeepsIndex(hashes: seq<nat>, starts: seq<int>, keys: seq<nat>, slot: nat, h: nat, v: int)
    requires Indexes(hashes, starts, keys)
    requires slot < |starts| && !Filled(starts, slot) && v == |keys| * BLOCK_SIZE + 1
    requires Passes(hashes, starts, slot, h)
    ensures Indexes(hashes[slot := h], starts[slot := v], keys + [h])
  {
    AbsentBeyondEmpty(hashes, starts, keys, slot, h);
    InsertKeepsSound(hashes, starts, keys, slot, h, v);
    InsertKeepsReachable(hashes, starts, slot, h, v);
    InsertKeepsComplete(hashes, starts, keys, slot, h, v);
    FilledAfter(starts, slot, v);
  }

  lemma FilledAfter(starts: seq<int>, slot: nat, v: int)
    requires slot < |starts| && v != 0
    ensures |FilledSlots(starts[slot := v])| <= |FilledSlots(starts)| + 1
  {
    assert FilledSlots(starts[slot := v]) == FilledSlots(starts) + {slot};
  }

  /** A repeated hash leaves the index as it is. */
  lemma RepeatKeepsIndex(hashes: seq<nat>, starts: seq<int>, keys: seq<nat>, slot: nat, h: nat)
    requires Indexes(hashes, starts, keys)
    requires Filled(starts, slot) && hashes[slot] == h
    ensures Indexes(hashes, starts, keys + [h])
  {
    assert First(keys, h).Some?;
    forall g: nat
      ensures First(keys + [h], g) == First(keys, g)
    {
      FirstAfter(keys, h, g);
    }
  }

  predicate PowerOfTwo(n: nat)
    decreases n
  {
    n == 1 || (n > 1 && n % 2 == 0 && PowerOfTwo(n / 2))
  }

  class Table {
    const older: seq<Byte>
    const size: nat
    const hashes: array<nat>
    const starts: array<int>
    ghost var keys: seq<nat>  // the hash of every block indexed so far
    ghost var hs: seq<nat>
    ghost var ss: seq<int>

    ghost predicate Shaped()
      reads this, hashes, starts
    {
      && hashes.Length == starts.Length == size
      && PowerOfTwo(size)
      && hashes as object != starts as object
      && hs == hashes[..] && ss == starts[..]
    }

    /** The arrays are an index of the keys, and never full. */
    ghost predicate Indexed()
      reads this, hashes, starts
    {
      Shaped() && |keys| < size && Indexes(hs, ss, keys)
    }

    ghost predicate Valid()
      reads this, hashes, starts
    {
      Indexed() && Hashed(keys, older)
    }

    /** Builds the index of older, block by block. */
    constructor (older: seq<Byte>)
      ensures Valid() && this.older == older
      ensures |keys| == |older| / BLOCK_SIZE
      ensures 2 * |keys| <= size && 8 <= size
      ensures fresh(hashes) && fresh(starts)
    {
      var blocks := |older| / BLOCK_SIZE;
      var size := 8;
      assert PowerOfTwo(8) by { assert PowerOfTwo(4) && PowerOfTwo(2); }
      while size < blocks * 2
        invariant 8 <= size && PowerOfTwo(size)
        decreases blocks * 2 - size
      {
        size := size * 2;
      }
      this.older, this.size := older, size;
      hashes := new nat[size](_ => 0);
      starts := new int[size](_ => 0);
      keys := [];
      new;
      hs, ss := hashes[..], starts[..];
      assert FilledSlots(ss) == {};
      var i := 0;
      while i + BLOCK_SIZE <= |older|
        invariant i == |keys| * BLOCK_SIZE <= |older|
        invariant Valid()
        invariant 2 * blocks <= this.size
        invariant fresh(hashes) && fresh(starts)
      {
        assert older[i..i + BLOCK_SIZE] == Block(older, |keys|);
        var h := RollingHash(older[i..i + BLOCK_SIZE]);
        ghost var before := keys;
        Insert(h, i);
        HashedNext(before, h, older);
        i := i + BLOCK_SIZE;
      }
    }

    /** Walks the probe sequence of h to the slot that holds it, or to the empty
        slot that proves it absent. There always is one. */
    method Probe(h: nat) returns (slot: nat)
      requires Indexed()
      ensures slot < size
      ensures starts[slot] != 0 ==> hashes[slot] == h
      ensures Passes(hs, ss, slot, h)
    {
      ghost var home := Home(h, size);
      ghost var empty := EmptySlotExists(ss);
      slot := Home(h, size);
      while starts[slot] != 0 && hashes[slot] != h
        invariant slot < size
        invariant Probes(home, slot, size) <= Probes(home, empty, size)
        invariant Passes(hs, ss, slot, h)
        decreases Probes(home, empty, size) - Probes(home, slot, size)
      {
        assert Filled(ss, slot) && hs[slot] != h;
        PassesNext(hs, ss, slot, h, empty);
        slot := NextSlot(slot, size);
      }
    }

    /** Takes an empty slot a probe for h stopped at. */
    method Fill(slot: nat, h: nat, v: int)
      requires Shaped() && slot < size && |keys| + 1 < size
      requires Indexes(hs[slot := h], ss[slot := v], keys + [h])
      modifies this, hashes, starts
      ensures Indexed() && keys == old(keys) + [h]
    {
      hashes[slot], starts[slot] := h, v;
      hs, ss, keys := hs[slot := h], ss[slot := v], keys + [h];
    }

    /** Passes over a block whose hash is there already. */
    method Pass(h: nat)
      requires Shaped() && |keys| + 1 < size
      requires Indexes(hs, ss, keys + [h])
      modifies this`keys
      ensures Indexed() && keys == old(keys) + [h]
    {
      keys := keys + [h];
    }

    /** Adds the hash of the next block to the index, whether or not it is new. */
    method Insert(h: nat, start: nat)
      requires Indexed() && start == |keys| * BLOCK_SIZE && |keys| + 1 < size
      modifies this, hashes, starts
      ensures Indexed() && keys == old(keys) + [h]
    {
      var slot := Probe(h);
      if starts[slot] == 0 {
        InsertKeepsIndex(hs, ss, keys, slot, h, start + 1);
        Fill(slot, h, start + 1);
      } else {
        assert Filled(ss, slot) && hs[slot] == h;
        RepeatKeepsIndex(hs, ss, keys, slot, h);
        Pass(h);
      }
    }

    /** Where block occurs in older, as far as the index knows: the first place
        with its hash, accepted only if the bytes agree. */
    method Lookup(h: nat, block: seq<Byte>) returns (at: nat, ok: bool)
      requires Valid()
      ensures ok <==> First(keys, h).Some? && First(keys, h).value < |keys| && Block(older, First(keys, h).value) == block
      ensures ok ==> at == First(keys, h).value * BLOCK_SIZE
      ensures ok ==> at + BLOCK_SIZE <= |older| && older[at..at + BLOCK_SIZE] == block
    {
      var slot := Probe(h);
      if starts[slot] == 0 {
        AbsentBeyondEmpty(hs, ss, keys, slot, h);
        return 0, false;
      }
      assert Filled(ss, slot);
      FirstIsSmallest(keys, h);
      at := starts[slot] - 1;
      ok := older[at..at + BLOCK_SIZE] == block;
    }
  }

  lemma HashedNext(keys: seq<nat>, h: nat, older: seq<Byte>)
    requires Hashed(keys, older) && (|keys| + 1) * BLOCK_SIZE <= |older| && h == Hash(Block(older, |keys|))
    ensures Hashed(keys + [h], older)
  {
  }

  /** So a lookup answers the smallest block-aligned offset whose block has that
      hash. */
  lemma LookupIsSmallest(keys: seq<nat>, older: seq<Byte>, h: nat)
    requires Hashed(keys, older)
    ensures First(keys, h).None? ==> forall k: nat :: k < |keys| ==> Hash(Block(older, k)) != h
    ensures First(keys, h).Some? ==>
              && First(keys, h).value < |keys| && Hash(Block(older, First(keys, h).value)) == h
              && forall k: nat :: k < First(keys, h).value ==> Hash(Block(older, k)) != h
  {
    FirstIsSmallest(keys, h);
  }
}
