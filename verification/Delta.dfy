/** The delta compiler: finding common runs and writing them into the
    container, with the proof that the reader gets the file back. */
module Delta {
  import opened Bytes
  import opened PatchFormat
  import BlockIndex
  import PatchReader

  const WINDOW := 32
  const WINDOW_MATCHES := 16

  /** A run: `length` bytes at newStart, told as differences from those at oldStart. */
  datatype Match = Match(newStart: nat, oldStart: nat, length: nat)

  predicate Inside(m: Match, older: seq<Byte>, newer: seq<Byte>) {
    && m.length >= BlockIndex.BLOCK_SIZE
    && m.newStart + m.length <= |newer|
    && m.oldStart + m.length <= |older|
  }

  /** Runs in order, without overlap, each longer than a byte and inside both
      files: what encoding relies on. */
  ghost predicate WellPlaced(found: seq<Match>, older: seq<Byte>, newer: seq<Byte>) {
    && (forall i :: 0 <= i < |found| ==> Inside(found[i], older, newer))
    && (forall i :: 0 < i < |found| ==> found[i - 1].newStart + found[i - 1].length <= found[i].newStart)
  }

  /** A run is grown from a whole block of older: from its first byte to the end
      of that block the two files agree, and so does its very last byte. */
  ghost predicate Anchored(m: Match, older: seq<Byte>, newer: seq<Byte>) {
    && Inside(m, older, newer)
    && newer[m.newStart + m.length - 1] == older[m.oldStart + m.length - 1]
    && exists k: nat :: Anchor(m, older, newer, k)
  }

  /** The run agrees from its first byte to the end of the k-th block of older. */
  ghost predicate Anchor(m: Match, older: seq<Byte>, newer: seq<Byte>, k: nat) {
    var start, end := k * BlockIndex.BLOCK_SIZE, (k + 1) * BlockIndex.BLOCK_SIZE;
    && m.oldStart <= start && end <= m.oldStart + m.length && end <= |older|
    && m.newStart + (end - m.oldStart) <= |newer|
    && newer[m.newStart..m.newStart + (end - m.oldStart)] == older[m.oldStart..end]
  }

  /** How many of n positions agree. */
  ghost function Agreeing(older: seq<Byte>, newer: seq<Byte>, oldEnd: nat, end: nat, n: nat): nat
    requires end + n <= |newer| && oldEnd + n <= |older|
  {
    if n == 0 then 0
    else Agreeing(older, newer, oldEnd, end, n - 1) + (if newer[end + n - 1] == older[oldEnd + n - 1] then 1 else 0)
  }

  /** None of the positions up to n and from k on agrees. */
  ghost predicate NoneFrom(older: seq<Byte>, newer: seq<Byte>, oldEnd: nat, end: nat, k: nat, n: nat)
    requires end + n <= |newer| && oldEnd + n <= |older|
  {
    forall j :: k <= j < n ==> Differs(older, newer, oldEnd, end, j)
  }

  predicate Differs(older: seq<Byte>, newer: seq<Byte>, oldEnd: nat, end: nat, j: int) {
    0 <= end + j < |newer| && 0 <= oldEnd + j < |older| && newer[end + j] != older[oldEnd + j]
  }

  /** How many of the next n positions agree, and where the last one that does
      ends. */
  method Agreement(older: seq<Byte>, newer: seq<Byte>, oldEnd: nat, end: nat, n: nat, last: nat)
    returns (agree: nat, last': nat)
    requires end + n <= |newer| && oldEnd + n <= |older| && last <= end
    ensures agree == Agreeing(older, newer, oldEnd, end, n)
    ensures last' == last || (end < last' <= end + n && newer[last' - 1] == older[oldEnd + (last' - 1 - end)])
    ensures NoneFrom(older, newer, oldEnd, end, if last' > end then last' - end else 0, n)
  {
    agree, last' := 0, last;
    for k := 0 to n
      invariant agree == Agreeing(older, newer, oldEnd, end, k)
      invariant last' == last || (end < last' <= end + k && newer[last' - 1] == older[oldEnd + (last' - 1 - end)])
      invariant NoneFrom(older, newer, oldEnd, end, if last' > end then last' - end else 0, k)
    {
      if newer[end + k] == older[oldEnd + k] {
        agree, last' := agree + 1, end + k + 1;
      }
    }
  }

  /** The longest stretch of equal bytes that ends with the block and does not
      reach into what is covered. */
  method GrowBack(older: seq<Byte>, newer: seq<Byte>, oldAt: nat, newAt: nat, covered: nat, size: nat)
    returns (start: nat, oldStart: nat)
    requires covered <= newAt && newAt + size <= |newer| && oldAt + size <= |older|
    requires newer[newAt..newAt + size] == older[oldAt..oldAt + size]
    ensures covered <= start <= newAt && newAt - start == oldAt - oldStart
    ensures newer[start..newAt + size] == older[oldStart..oldAt + size]
    ensures start == covered || oldStart == 0 || newer[start - 1] != older[oldStart - 1]
  {
    start, oldStart := newAt, oldAt;
    while start > covered && oldStart > 0 && newer[start - 1] == older[oldStart - 1]
      invariant covered <= start <= newAt && newAt - start == oldAt - oldStart
      invariant newer[start..newAt + size] == older[oldStart..oldAt + size]
    {
      assert newer[start - 1..newAt + size] == [newer[start - 1]] + newer[start..newAt + size];
      assert older[oldStart - 1..oldAt + size] == [older[oldStart - 1]] + older[oldStart..oldAt + size];
      start, oldStart := start - 1, oldStart - 1;
    }
  }

  /** How long the window is that starts there: 32 bytes, or what is left. */
  ghost function WindowAt(older: seq<Byte>, newer: seq<Byte>, oldEnd: nat, end: nat): nat
    requires end <= |newer| && oldEnd <= |older|
  {
    var n := if |newer| - end < |older| - oldEnd then |newer| - end else |older| - oldEnd;
    if n < 32 then n else 32
  }

  /** At least half of the window agrees. */
  ghost predicate HalfAgrees(older: seq<Byte>, newer: seq<Byte>, oldEnd: nat, end: nat)
    requires end <= |newer| && oldEnd <= |older|
  {
    var n := WindowAt(older, newer, oldEnd, end);
    2 * Agreeing(older, newer, oldEnd, end, n) >= n
  }

  /** Carries a run forwards, a window at a time, while at least half of each
      window agrees; ends it after the last byte that did. `stop` is the first
      window that does not, or the end of a file. */
  method GrowForward(older: seq<Byte>, newer: seq<Byte>, oldFrom: nat, from: nat) returns (last: nat, ghost stop: nat)
    requires 0 < from <= |newer| && 0 < oldFrom <= |older|
    requires newer[from - 1] == older[oldFrom - 1]
    ensures StopsAt(older, newer, oldFrom, from, last, stop)
    ensures newer[last - 1] == older[oldFrom + (last - from) - 1]
  {
    var end, oldEnd := from, oldFrom;
    last := end;
    while end < |newer| && oldEnd < |older|
      invariant from <= end <= |newer| && oldEnd <= |older| && end - from == oldEnd - oldFrom
      invariant from <= last <= end
      invariant newer[last - 1] == older[oldFrom + (last - from) - 1]
      invariant end < |newer| && oldEnd < |older| ==> (end - from) % 32 == 0
      invariant CarriesTo(older, newer, oldFrom, from, end)
      invariant NoneFrom(older, newer, oldFrom, from, last - from, end - from)
      decreases |newer| - end
    {
      var n := if |newer| - end < |older| - oldEnd then |newer| - end else |older| - oldEnd;
      n := if WINDOW < n then WINDOW else n;
      var agree, next := Agreement(older, newer, oldEnd, end, n, last);
      if agree * WINDOW < WINDOW_MATCHES * n {
        break;
      }
      CarriesNext(older, newer, oldFrom, from, end);
      NoneAfter(older, newer, oldFrom, from, end, n, last, next);
      last := next;
      end, oldEnd := end + n, oldEnd + n;
    }
    stop := end;
  }

  ghost predicate CarriesTo(older: seq<Byte>, newer: seq<Byte>, oldFrom: nat, from: nat, end: nat) {
    forall j: nat :: from + 32 * j < end ==> Carries(older, newer, oldFrom, from, j)
  }

  lemma CarriesNext(older: seq<Byte>, newer: seq<Byte>, oldFrom: nat, from: nat, end: nat)
    requires from <= end <= |newer| && oldFrom + (end - from) <= |older| && (end - from) % 32 == 0
    requires CarriesTo(older, newer, oldFrom, from, end) && HalfAgrees(older, newer, oldFrom + (end - from), end)
    ensures CarriesTo(older, newer, oldFrom, from, end + WindowAt(older, newer, oldFrom + (end - from), end))
  {
    forall j: nat | from + 32 * j < end + WindowAt(older, newer, oldFrom + (end - from), end)
      ensures Carries(older, newer, oldFrom, from, j)
    {
      if from + 32 * j >= end {
        OneWindow(end - from, j);
      }
    }
  }

  lemma OneWindow(a: nat, j: nat)
    requires a % 32 == 0 && a <= 32 * j < a + 32
    ensures 32 * j == a
  {
    assert a == 32 * (a / 32);
  }

  /** The j-th window after `from` lets the run go on. */
  ghost predicate Carries(older: seq<Byte>, newer: seq<Byte>, oldFrom: nat, from: nat, j: nat) {
    var at := 32 * j;
    from + at <= |newer| && oldFrom + at <= |older| && HalfAgrees(older, newer, oldFrom + at, from + at)
  }

  lemma NoneAfter(older: seq<Byte>, newer: seq<Byte>, oldFrom: nat, from: nat, end: nat, n: nat, last: nat, next: nat)
    requires from <= last <= end && end + n <= |newer| && oldFrom + (end - from) + n <= |older|
    requires NoneFrom(older, newer, oldFrom, from, last - from, end - from)
    requires next == last || end < next <= end + n
    requires NoneFrom(older, newer, oldFrom + (end - from), end, if next > end then next - end else 0, n)
    ensures NoneFrom(older, newer, oldFrom, from, next - from, end - from + n)
  {
    forall j | next - from <= j < end - from + n
      ensures Differs(older, newer, oldFrom, from, j)
    {
      if j >= end - from {
        assert Differs(older, newer, oldFrom + (end - from), end, j - (end - from));
      } else {
        assert last - from <= j;
      }
    }
  }

  /** A run that went on from there to `last`: every window before `stop` agrees by
      half, the one at `stop` does not, unless a file ends, and `last` is behind
      the last byte before it that agrees. */
  ghost predicate StopsAt(older: seq<Byte>, newer: seq<Byte>, oldFrom: nat, from: nat, last: nat, stop: nat) {
    && from <= last <= stop <= |newer| && oldFrom + (stop - from) <= |older|
    && CarriesTo(older, newer, oldFrom, from, stop)
    && (stop == |newer| || oldFrom + (stop - from) == |older|
        || ((stop - from) % 32 == 0 && !HalfAgrees(older, newer, oldFrom + (stop - from), stop)))
    && NoneFrom(older, newer, oldFrom, from, last - from, stop - from)
  }

  /** Grows a run around a block of older that newer repeats: backwards while the
      bytes are equal, forwards while half of each window is. */
  method Grow(older: seq<Byte>, newer: seq<Byte>, oldAt: nat, newAt: nat, covered: nat, ghost k: nat)
    returns (m: Match, ghost stop: nat)
    requires covered <= newAt && oldAt == k * BlockIndex.BLOCK_SIZE
    requires newAt + BlockIndex.BLOCK_SIZE <= |newer| && oldAt + BlockIndex.BLOCK_SIZE <= |older|
    requires newer[newAt..newAt + BlockIndex.BLOCK_SIZE] == older[oldAt..oldAt + BlockIndex.BLOCK_SIZE]
    ensures covered <= m.newStart <= newAt
    ensures newAt + BlockIndex.BLOCK_SIZE <= m.newStart + m.length
    ensures newAt - m.newStart == oldAt - m.oldStart
    ensures Anchored(m, older, newer)
    ensures m.newStart == covered || m.oldStart == 0 || newer[m.newStart - 1] != older[m.oldStart - 1]
    ensures StopsAt(older, newer, oldAt + BlockIndex.BLOCK_SIZE, newAt + BlockIndex.BLOCK_SIZE, m.newStart + m.length, stop)
  {
    var size := BlockIndex.BLOCK_SIZE;
    var start, oldStart := GrowBack(older, newer, oldAt, newAt, covered, size);
    assert newer[newAt..newAt + size][size - 1] == older[oldAt..oldAt + size][size - 1];
    var last;
    last, stop := GrowForward(older, newer, oldAt + size, newAt + size);
    m := Match(start, oldStart, last - start);
    assert Anchor(m, older, newer, k);
  }

  /** The rolling hash at i is always the hash of the block at i. */
  lemma RolledHash(newer: seq<Byte>, i: nat, pow: nat)
    requires i + BlockIndex.BLOCK_SIZE < |newer|
    requires pow == BlockIndex.Power(BlockIndex.HASH_BASE, BlockIndex.BLOCK_SIZE - 1) % TWO64
    ensures BlockIndex.Roll(BlockIndex.Hash(newer[i..i + BlockIndex.BLOCK_SIZE]), pow, newer[i],
                            newer[i + BlockIndex.BLOCK_SIZE])
         == BlockIndex.Hash(newer[i + 1..i + 1 + BlockIndex.BLOCK_SIZE])
  {
    var n := BlockIndex.BLOCK_SIZE;
    var shared := newer[i + 1..i + n];
    assert newer[i..i + n] == [newer[i]] + shared;
    assert newer[i + 1..i + 1 + n] == shared + [newer[i + n]];
    BlockIndex.RollIsRehash(newer[i], shared, newer[i + n], pow);
  }

  ghost function Covered(found: seq<Match>): nat {
    if found == [] then 0 else found[|found| - 1].newStart + found[|found| - 1].length
  }

  ghost predicate AllAnchored(found: seq<Match>, older: seq<Byte>, newer: seq<Byte>) {
    forall i :: 0 <= i < |found| ==> Anchored(found[i], older, newer)
  }

  lemma WellPlacedAppend(found: seq<Match>, m: Match, older: seq<Byte>, newer: seq<Byte>)
    requires WellPlaced(found, older, newer) && AllAnchored(found, older, newer)
    requires Anchored(m, older, newer) && Covered(found) <= m.newStart
    ensures WellPlaced(found + [m], older, newer) && AllAnchored(found + [m], older, newer)
    ensures Covered(found + [m]) == m.newStart + m.length
  {
    var all := found + [m];
    forall i | 0 <= i < |all|
      ensures Inside(all[i], older, newer) && Anchored(all[i], older, newer)
    {
      assert i < |found| ==> all[i] == found[i];
    }
  }

  /** What stands at i is the k-th block of older, and the first with that hash. */
  ghost predicate Repeats(older: seq<Byte>, newer: seq<Byte>, i: nat, k: nat) {
    && i + 64 <= |newer| && 64 * k + 64 <= |older|
    && older[64 * k..64 * k + 64] == newer[i..i + 64]
    && forall j: nat :: j < k ==> Unlike(older, newer, i, j)
  }

  ghost predicate Unlike(older: seq<Byte>, newer: seq<Byte>, i: nat, j: nat)
    requires i + BlockIndex.BLOCK_SIZE <= |newer|
  {
    && (j + 1) * BlockIndex.BLOCK_SIZE <= |older|
    && BlockIndex.Hash(BlockIndex.Block(older, j)) != BlockIndex.Hash(newer[i..i + BlockIndex.BLOCK_SIZE])
  }

  ghost predicate Covers(m: Match, i: nat) {
    m.newStart <= i < m.newStart + m.length
  }

  /** Every position up to n at which a block is repeated is part of a run. */
  ghost predicate Complete(found: seq<Match>, older: seq<Byte>, newer: seq<Byte>, n: int) {
    forall i: nat, k: nat :: i < n && Repeats(older, newer, i, k) ==> exists m :: m in found && Covers(m, i)
  }

  lemma RepeatIsFound(keys: seq<nat>, older: seq<Byte>, newer: seq<Byte>, i: nat, k: nat)
    requires BlockIndex.Hashed(keys, older) && |keys| == |older| / BlockIndex.BLOCK_SIZE && Repeats(older, newer, i, k)
    ensures BlockIndex.First(keys, BlockIndex.Hash(newer[i..i + BlockIndex.BLOCK_SIZE])) == Some(k)
  {
    var h := BlockIndex.Hash(newer[i..i + BlockIndex.BLOCK_SIZE]);
    assert k < |keys|;
    assert keys[k] == h;
    forall j: nat | j < k
      ensures keys[j] != h
    {
      assert Unlike(older, newer, i, j);
    }
    BlockIndex.FirstIsSmallest(keys, h);
  }

  lemma CompleteNext(found: seq<Match>, m: Match, older: seq<Byte>, newer: seq<Byte>, i: nat)
    requires Complete(found, older, newer, i) && Covers(m, i)
    ensures Complete(found + [m], older, newer, i + 1)
  {
    forall j: nat, k: nat | j < i + 1 && Repeats(older, newer, j, k)
      ensures exists x :: x in found + [m] && Covers(x, j)
    {
      if j == i {
        assert m in found + [m];
      } else {
        var x :| x in found && Covers(x, j);
        assert x in found + [m];
      }
    }
  }

  /** What the scan has found before it comes to i. */
  ghost predicate Scanned(found: seq<Match>, older: seq<Byte>, newer: seq<Byte>, i: nat, covered: nat) {
    && WellPlaced(found, older, newer) && AllAnchored(found, older, newer)
    && covered == Covered(found) && (found != [] ==> found[|found| - 1].newStart <= i)
    && Complete(found, older, newer, i)
  }

  lemma TakesRun(found: seq<Match>, m: Match, older: seq<Byte>, newer: seq<Byte>, i: nat, covered: nat)
    requires Scanned(found, older, newer, i, covered)
    requires Anchored(m, older, newer) && covered <= m.newStart && Covers(m, i)
    ensures Scanned(found + [m], older, newer, i + 1, m.newStart + m.length)
  {
    WellPlacedAppend(found, m, older, newer);
    CompleteNext(found, m, older, newer, i);
  }

  lemma PassesBy(found: seq<Match>, older: seq<Byte>, newer: seq<Byte>, i: nat, covered: nat)
    requires Scanned(found, older, newer, i, covered)
    requires i < covered || forall k: nat :: !Repeats(older, newer, i, k)
    ensures Scanned(found, older, newer, i + 1, covered)
  {
    if i < covered {
      assert found[|found| - 1] in found && Covers(found[|found| - 1], i);
    }
  }

  lemma ScannedAll(found: seq<Match>, older: seq<Byte>, newer: seq<Byte>, n: nat, covered: nat)
    requires Scanned(found, older, newer, n, covered) && n + BlockIndex.BLOCK_SIZE > |newer|
    ensures Complete(found, older, newer, |newer|)
  {
  }

  /** Whether a run starts at i, and where it goes if so. */
  method RunAt(table: BlockIndex.Table, h: nat, older: seq<Byte>, newer: seq<Byte>, i: nat, covered: nat)
    returns (m: Option<Match>)
    requires table.Valid() && table.older == older
    requires covered <= i && i + BlockIndex.BLOCK_SIZE <= |newer|
    requires h == BlockIndex.Hash(newer[i..i + BlockIndex.BLOCK_SIZE])
    requires |table.keys| == |older| / BlockIndex.BLOCK_SIZE
    ensures m.Some? ==> Anchored(m.value, older, newer) && covered <= m.value.newStart && Covers(m.value, i)
    ensures m.None? ==> forall k: nat :: !Repeats(older, newer, i, k)
  {
    forall k: nat | Repeats(older, newer, i, k)
      ensures BlockIndex.First(table.keys, h) == Some(k)
    {
      RepeatIsFound(table.keys, older, newer, i, k);
    }
    var at, ok := table.Lookup(h, newer[i..i + BlockIndex.BLOCK_SIZE]);
    if !ok {
      return None;
    }
    var run, _ := Grow(older, newer, at, i, covered, BlockIndex.First(table.keys, h).value);
    return Some(run);
  }

  /** One position of the scan: skipped if it is covered, looked up if not. */
  method Visit(table: BlockIndex.Table, h: nat, older: seq<Byte>, newer: seq<Byte>, i: nat, found: seq<Match>, covered: nat)
    returns (found': seq<Match>, covered': nat)
    requires table.Valid() && table.older == older && |table.keys| == |older| / BlockIndex.BLOCK_SIZE
    requires i + BlockIndex.BLOCK_SIZE <= |newer| && h == BlockIndex.Hash(newer[i..i + BlockIndex.BLOCK_SIZE])
    requires Scanned(found, older, newer, i, covered)
    ensures Scanned(found', older, newer, i + 1, covered')
  {
    if i >= covered {
      var run := RunAt(table, h, older, newer, i, covered);
      if run.Some? {
        TakesRun(found, run.value, older, newer, i, covered);
        return found + [run.value], run.value.newStart + run.value.length;
      }
    }
    PassesBy(found, older, newer, i, covered);
    return found, covered;
  }

  /** Scans newer once with the rolling hash and collects runs, in order and
      disjoint, each around a whole block of older. */
  method Matches(older: seq<Byte>, newer: seq<Byte>) returns (found: seq<Match>)
    ensures WellPlaced(found, older, newer)
    ensures AllAnchored(found, older, newer)
    ensures Complete(found, older, newer, |newer|)
  {
    found := [];
    if |older| < BlockIndex.BLOCK_SIZE || |newer| < BlockIndex.BLOCK_SIZE {
      return;
    }
    var table := new BlockIndex.Table(older);
    var pow := BlockIndex.HashPow();
    var covered: nat, i: nat := 0, 0;
    assert newer[..BlockIndex.BLOCK_SIZE] == newer[0..0 + BlockIndex.BLOCK_SIZE];
    var h := BlockIndex.RollingHash(newer[..BlockIndex.BLOCK_SIZE]);
    while true
      invariant 0 <= i && i + BlockIndex.BLOCK_SIZE <= |newer|
      invariant h == BlockIndex.Hash(newer[i..i + BlockIndex.BLOCK_SIZE])
      invariant Scanned(found, older, newer, i, covered)
      decreases |newer| - i
      modifies {}
    {
      found, covered := Visit(table, h, older, newer, i, found, covered);
      if i + BlockIndex.BLOCK_SIZE >= |newer| {
        ScannedAll(found, older, newer, i + 1, covered);
        break;
      }
      RolledHash(newer, i, pow);
      h := BlockIndex.Roll(h, pow, newer[i], newer[i + BlockIndex.BLOCK_SIZE]);
      i := i + 1;
    }
  }

  /** The differences that turn a stretch of older into one of newer. */
  function SubByte(a: int, b: int): Byte {
    (a - b) % 256
  }

  method Differences(older: seq<Byte>, newer: seq<Byte>, m: Match) returns (d: seq<Byte>)
    requires m.newStart + m.length <= |newer| && m.oldStart + m.length <= |older|
    ensures |d| == m.length
    ensures AddBytes(d, older[m.oldStart..m.oldStart + m.length]) == newer[m.newStart..m.newStart + m.length]
  {
    d := [];
    for k := 0 to m.length
      invariant |d| == k
      invariant forall j :: 0 <= j < k ==> d[j] == SubByte(newer[m.newStart + j], older[m.oldStart + j])
    {
      d := d + [SubByte(newer[m.newStart + k], older[m.oldStart + k])];
    }
  }

  /** The entries written so far rebuild newer up to newPos and leave the base
      position at basePos. */
  ghost predicate Describes(older: seq<Byte>, newer: seq<Byte>, es: seq<Entry>, diff: seq<Byte>, extra: seq<Byte>,
                            newPos: nat, basePos: nat) {
    && newPos <= |newer| && basePos <= |older|
    && Encodable(es)
    && Landing(0, es) == basePos
    && Rebuild(older, 0, es, diff, 0, extra, 0, newPos) == Some(newer[..newPos])
  }

  ghost predicate Builds(base: seq<Byte>, start: nat, es: seq<Entry>, diff: seq<Byte>, dp: nat, extra: seq<Byte>, xp: nat,
                         left: nat, s: seq<Byte>) {
    Rebuild(base, start, es, diff, dp, extra, xp, left) == Some(s)
  }

  /** Appending one fitting entry appends its piece. */
  lemma {:induction false} RebuildAppend(base: seq<Byte>, start: nat, es: seq<Entry>, diff: seq<Byte>, dp: nat,
                                         extra: seq<Byte>, xp: nat, left: nat, e: Entry, d: seq<Byte>, x: seq<Byte>,
                                         at: nat, s: seq<Byte>, p: seq<Byte>)
    requires Builds(base, start, es, diff, dp, extra, xp, left, s)
    requires Landing(start, es) == at
    requires e.add == |d| && e.literal == |x|
    requires Runs(e, |base|, at, |d|, |x|, |d| + |x|)
    requires p == AddBytes(d, base[at..at + |d|]) + x
    ensures Builds(base, start, es + [e], diff + d, dp, extra + x, xp, left + |d| + |x|, s + p)
    decreases |es|
  {
    if es == [] {
      NothingBuilt(base, start, es, diff, dp, extra, xp, left, s);
      RebuildOne(base, start, es, e, diff, extra, d, x, p);
      assert s + p == p;
    } else {
      var e0 := es[0];
      var s0 := RebuildSplit(base, start, es, diff, dp, extra, xp, left, s);
      RebuildAppend(base, start + e0.add + e0.seek, es[1..], diff, dp + e0.add, extra, xp + e0.literal,
                    left - e0.add - e0.literal, e, d, x, at, s0, p);
      RebuildStep(base, start, es, e, diff, dp, d, extra, xp, x, left, s0 + p);
      ConcatAssociates(Piece(e0, base, start, diff, dp, extra, xp), s0, p);
    }
  }

  lemma NothingBuilt(base: seq<Byte>, start: nat, es: seq<Entry>, diff: seq<Byte>, dp: nat, extra: seq<Byte>, xp: nat,
                     left: nat, s: seq<Byte>)
    requires es == [] && Builds(base, start, es, diff, dp, extra, xp, left, s)
    ensures s == [] && left == 0 && dp == |diff| && xp == |extra|
  {
  }

  lemma ConcatAssociates(a: seq<Byte>, b: seq<Byte>, c: seq<Byte>)
    ensures a + (b + c) == (a + b) + c
  {
  }

  lemma RebuildSplit(base: seq<Byte>, start: nat, es: seq<Entry>, diff: seq<Byte>, dp: nat, extra: seq<Byte>, xp: nat,
                     left: nat, s: seq<Byte>) returns (s0: seq<Byte>)
    requires es != [] && Builds(base, start, es, diff, dp, extra, xp, left, s)
    ensures Runs(es[0], |base|, start, |diff| - dp, |extra| - xp, left)
    ensures Builds(base, start + es[0].add + es[0].seek, es[1..], diff, dp + es[0].add, extra, xp + es[0].literal,
                   left - es[0].add - es[0].literal, s0)
    ensures s == Piece(es[0], base, start, diff, dp, extra, xp) + s0
  {
    s0 := Rebuild(base, start + es[0].add + es[0].seek, es[1..], diff, dp + es[0].add, extra, xp + es[0].literal,
                  left - es[0].add - es[0].literal).value;
  }

  lemma RebuildOne(base: seq<Byte>, start: nat, es: seq<Entry>, e: Entry, diff: seq<Byte>, extra: seq<Byte>,
                   d: seq<Byte>, x: seq<Byte>, p: seq<Byte>)
    requires es == [] && e.add == |d| && e.literal == |x|
    requires Runs(e, |base|, start, |d|, |x|, |d| + |x|)
    requires p == AddBytes(d, base[start..start + |d|]) + x
    ensures Builds(base, start, es + [e], diff + d, |diff|, extra + x, |extra|, |d| + |x|, p)
  {
    assert es + [e] == [e];
    assert (diff + d)[|diff|..|diff| + |d|] == d && (extra + x)[|extra|..|extra| + |x|] == x;
    assert p + [] == p;
  }

  /** The first entry of a longer list, on longer streams. */
  lemma RebuildStep(base: seq<Byte>, start: nat, es: seq<Entry>, e: Entry, diff: seq<Byte>, dp: nat, d: seq<Byte>,
                    extra: seq<Byte>, xp: nat, x: seq<Byte>, left: nat, tail: seq<Byte>)
    requires es != [] && Runs(es[0], |base|, start, |diff| - dp, |extra| - xp, left)
    requires Builds(base, start + es[0].add + es[0].seek, es[1..] + [e], diff + d, dp + es[0].add, extra + x,
                    xp + es[0].literal, left - es[0].add - es[0].literal + |d| + |x|, tail)
    ensures Builds(base, start, es + [e], diff + d, dp, extra + x, xp, left + |d| + |x|,
                   Piece(es[0], base, start, diff, dp, extra, xp) + tail)
  {
    assert (es + [e])[1..] == es[1..] + [e];
    PieceOfPrefix(es[0], base, start, diff, dp, d, extra, xp, x);
  }

  lemma PieceOfPrefix(e: Entry, base: seq<Byte>, start: nat, diff: seq<Byte>, dp: nat, d: seq<Byte>,
                      extra: seq<Byte>, xp: nat, x: seq<Byte>)
    requires start + e.add <= |base| && dp + e.add <= |diff| && xp + e.literal <= |extra|
    ensures Piece(e, base, start, diff + d, dp, extra + x, xp) == Piece(e, base, start, diff, dp, extra, xp)
  {
    assert (diff + d)[dp..dp + e.add] == diff[dp..dp + e.add];
    assert (extra + x)[xp..xp + e.literal] == extra[xp..xp + e.literal];
  }

  lemma {:induction false} LandingAppend(start: int, es: seq<Entry>, e: Entry)
    ensures Landing(start, es + [e]) == Landing(start, es) + e.add + e.seek
    decreases |es|
  {
    if es == [] {
      assert es + [e] == [e];
    } else {
      assert (es + [e])[1..] == es[1..] + [e];
      LandingAppend(start + es[0].add + es[0].seek, es[1..], e);
    }
  }

  /** One more entry: differences d for the run at basePos, then literals x. */
  lemma DescribesAppend(older: seq<Byte>, newer: seq<Byte>, es: seq<Entry>, diff: seq<Byte>, extra: seq<Byte>,
                        newPos: nat, basePos: nat, d: seq<Byte>, x: seq<Byte>, seek: int)
    requires |older| <= MAX_INT64 && |newer| <= MAX_INT64
    requires Describes(older, newer, es, diff, extra, newPos, basePos)
    requires 0 < |d| + |x| && newPos + |d| + |x| <= |newer| && basePos + |d| <= |older|
    requires 0 <= basePos + |d| + seek <= |older|
    requires AddBytes(d, older[basePos..basePos + |d|]) == newer[newPos..newPos + |d|]
    requires x == newer[newPos + |d|..newPos + |d| + |x|]
    ensures Describes(older, newer, es + [Entry(|d|, |x|, seek)], diff + d, extra + x,
                      newPos + |d| + |x|, basePos + |d| + seek)
  {
    var e := Entry(|d|, |x|, seek);
    var p := newer[newPos..newPos + |d|] + x;
    RebuildAppend(older, 0, es, diff, 0, extra, 0, newPos, e, d, x, basePos, newer[..newPos], p);
    LandingAppend(0, es, e);
    EncodableAppend(es, e);
    SliceAppend(newer, newPos, |d|, |x|);
  }

  lemma EncodableAppend(es: seq<Entry>, e: Entry)
    requires Encodable(es) && Encodable([e])
    ensures Encodable(es + [e])
  {
    assert [e][0] == e;
  }

  lemma SliceAppend(s: seq<Byte>, at: nat, a: nat, b: nat)
    requires at + a + b <= |s|
    ensures s[..at] + (s[at..at + a] + s[at + a..at + a + b]) == s[..at + a + b]
  {
  }

  /** The three streams as they grow, and how much of newer they describe. */
  class Encoder {
    const older: seq<Byte>
    const newer: seq<Byte>
    var ctrl: seq<Byte>
    var diff: seq<Byte>
    var extra: seq<Byte>
    var newPos: nat
    var basePos: nat
    ghost var es: seq<Entry>

    ghost predicate Valid()
      reads this
    {
      && |older| <= MAX_INT64 && |newer| <= MAX_INT64
      && ctrl == PutEntries(es)
      && Describes(older, newer, es, diff, extra, newPos, basePos)
    }

    constructor (older: seq<Byte>, newer: seq<Byte>)
      requires |older| <= MAX_INT64 && |newer| <= MAX_INT64
      ensures Valid() && newPos == 0 && basePos == 0
      ensures this.older == older && this.newer == newer
    {
      this.older, this.newer := older, newer;
      ctrl, diff, extra, es := [], [], [], [];
      newPos, basePos := 0, 0;
    }

    /** Writes one control entry with its differences and literals. */
    method Emit(d: seq<Byte>, x: seq<Byte>, seek: int)
      requires Valid()
      requires 0 < |d| + |x| && newPos + |d| + |x| <= |newer| && basePos + |d| <= |older|
      requires 0 <= basePos + |d| + seek <= |older|
      requires AddBytes(d, older[basePos..basePos + |d|]) == newer[newPos..newPos + |d|]
      requires x == newer[newPos + |d|..newPos + |d| + |x|]
      modifies this
      ensures Valid()
      ensures newPos == old(newPos) + |d| + |x| && basePos == old(basePos) + |d| + seek
    {
      DescribesAppend(older, newer, es, diff, extra, newPos, basePos, d, x, seek);
      var e := Entry(|d|, |x|, seek);
      PutEntriesAppend(es, e);
      ctrl := ctrl + PutEntry(e);
      es, diff, extra := es + [e], diff + d, extra + x;
      newPos, basePos := newPos + |d| + |x|, basePos + |d| + seek;
    }

    /** Brings the base position to the start of a run by an entry without
        differences. An entry must carry something: where no literals are left
        to carry, it takes the run's first byte. */
    method Lead(m: Match) returns (m': Match)
      requires Valid()
      requires newPos <= m.newStart && m.length > 1
      requires m.newStart + m.length <= |newer| && m.oldStart + m.length <= |older|
      modifies this
      ensures Valid()
      ensures newPos == m'.newStart && basePos == m'.oldStart && m'.length > 0
      ensures m'.newStart + m'.length == m.newStart + m.length && m'.oldStart + m'.length == m.oldStart + m.length
    {
      m' := m;
      var gap := m.newStart - newPos;
      if gap > 0 || basePos != m.oldStart {
        if gap == 0 {
          m', gap := Match(m.newStart + 1, m.oldStart + 1, m.length - 1), 1;
        }
        assert AddBytes([], older[basePos..basePos + 0]) == newer[newPos..newPos + 0];
        Emit([], newer[newPos..newPos + gap], m'.oldStart - basePos);
      }
    }

    /** Emits a run with the literals behind it up to `tail`, and moves the base
        position to `landing`, if another run follows. */
    method Run(run: Match, tail: nat, landing: Option<nat>)
      requires Valid()
      requires newPos <= run.newStart && run.length > 1
      requires run.newStart + run.length <= tail <= |newer| && run.oldStart + run.length <= |older|
      requires landing.Some? ==> landing.value <= |older|
      modifies this
      ensures Valid() && newPos == tail
      ensures landing.Some? ==> basePos == landing.value
    {
      var m := Lead(run);
      var d := Differences(older, newer, m);
      var seek := match landing case None => 0 case Some(to) => to - (basePos + m.length);
      Emit(d, newer[newPos + m.length..tail], seek);
    }
  }

  lemma PutEntriesAppend(es: seq<Entry>, e: Entry)
    ensures PutEntries(es + [e]) == PutEntries(es) + PutEntry(e)
  {
    assert (es + [e])[..|es|] == es;
  }

  /** Turns runs into control entries and the two byte streams they draw on, so
      that rebuilding them over older gives newer. */
  method Encode(older: seq<Byte>, newer: seq<Byte>, found: seq<Match>)
    returns (ctrl: seq<Byte>, diff: seq<Byte>, extra: seq<Byte>, ghost es: seq<Entry>)
    requires |older| <= MAX_INT64 && |newer| <= MAX_INT64
    requires WellPlaced(found, older, newer)
    ensures Encodable(es) && ctrl == PutEntries(es)
    ensures Rebuild(older, 0, es, diff, 0, extra, 0, |newer|) == Some(newer)
  {
    var out := new Encoder(older, newer);
    var i := 0;
    while i < |found|
      invariant 0 <= i <= |found|
      invariant fresh(out) && out.Valid() && out.older == older && out.newer == newer
      invariant 0 < i < |found| ==> out.newPos == found[i].newStart && out.basePos == found[i].oldStart
      invariant i == 0 ==> out.newPos == 0
      invariant 0 < i == |found| ==> out.newPos == |newer|
    {
      if i + 1 < |found| {
        assert found[(i + 1) - 1].newStart + found[(i + 1) - 1].length <= found[i + 1].newStart;
        out.Run(found[i], found[i + 1].newStart, Some(found[i + 1].oldStart));
      } else {
        out.Run(found[i], |newer|, None);
      }
      i := i + 1;
    }
    if out.newPos < |newer| {
      assert AddBytes([], older[out.basePos..out.basePos + 0]) == newer[out.newPos..out.newPos + 0];
      out.Emit([], newer[out.newPos..], 0);
    }
    assert newer[..out.newPos] == newer;
    ctrl, diff, extra, es := out.ctrl, out.diff, out.extra, out.es;
  }

  /** Compiles the two files into a patch that turns one into the other, whatever
      they are and whichever invertible compressor is used. */
  method Diff(c: Codec, older: seq<Byte>, newer: seq<Byte>) returns (patch: seq<Byte>)
    requires |older| <= MAX_INT64 && |newer| <= MAX_INT64
    ensures Invertible(c) && |patch| <= MAX_INT64 ==> Turns(c, older, newer, patch)
  {
    var found := Matches(older, newer);
    var ctrl, diff, extra; ghost var es;
    ctrl, diff, extra, es := Encode(older, newer, found);
    patch := Assemble(|newer|, c.deflate(ctrl), c.deflate(diff), c.deflate(extra));
    if Invertible(c) && |patch| <= MAX_INT64 {
      forall maxOut: int | maxOut > 0 && maxOut >= |newer|
        ensures Reconstruct(c, older, patch, maxOut) == Some(newer)
      {
        AssembleSplit(|newer|, c.deflate(ctrl), c.deflate(diff), c.deflate(extra), maxOut);
        EntriesRoundTrip(es);
      }
    }
  }

  /** The two halves invert each other. */
  method RoundTrip(c: Codec, older: seq<Byte>, newer: seq<Byte>, maxOut: int)
    returns (patch: seq<Byte>, back: Option<seq<Byte>>)
    requires |older| <= MAX_INT64 && |newer| <= MAX_INT64
    requires maxOut > 0 && maxOut >= |newer|
    ensures Invertible(c) && |patch| <= MAX_INT64 ==> back == Some(newer)
  {
    patch := Diff(c, older, newer);
    back := PatchReader.ApplyPatch(c, older, patch, maxOut);
  }
}
