/** The bounded streaming interpreter of a patch, window by window, and the
    proof that it is the plain meaning given in module PatchFormat. */
module PatchReader {
  import opened Bytes
  import opened PatchFormat

  const COPY_BUFFER_SIZE := 262144
  const BASE_WINDOW := 4096

  /** One decompressed stream, read from the front. */
  class Stream {
    const data: seq<Byte>
    const clean: bool
    const unread: nat
    var pos: nat

    constructor (s: Inflated)
      ensures data == s.data && clean == s.clean && unread == s.unread && pos == 0
    {
      data, clean, unread := s.data, s.clean, s.unread;
      pos := 0;
    }

    ghost predicate Valid()
      reads this
    {
      pos <= |data|
    }

    /** What is still to be read. */
    ghost function Rest(): seq<Byte>
      reads this
      requires Valid()
    {
      data[pos..]
    }

    /** Fills the first n places of buf, or fails having read what was left. */
    method ReadFull(buf: array<Byte>, n: nat) returns (ok: bool)
      requires Valid() && n <= buf.Length
      modifies this, buf
      ensures Valid()
      ensures ok == (old(pos) + n <= |data|)
      ensures ok ==> pos == old(pos) + n && buf[..n] == data[old(pos)..old(pos) + n]
    {
      ok := n <= |data| - pos;
      var k := if ok then n else |data| - pos;
      ghost var start := pos;
      var i := 0;
      while i < k
        invariant 0 <= i <= k
        invariant pos == start
        invariant forall j :: 0 <= j < i ==> buf[j] == data[start + j]
      {
        buf[i] := data[pos + i];
        i := i + 1;
      }
      pos := pos + k;
    }
  }

  /** The output, with the bound its owner declared for it. */
  class Sink {
    const limit: int
    var written: seq<Byte>

    constructor (limit: int)
      ensures this.limit == limit && written == []
    {
      this.limit := limit;
      written := [];
    }

    method Write(buf: array<Byte>, n: nat) returns (ok: bool)
      requires n <= buf.Length
      modifies this
      ensures ok == (|old(written)| + n <= limit)
      ensures written == if ok then old(written) + buf[..n] else old(written)
    {
      ok := |written| + n <= limit;
      if ok {
        written := written + buf[..n];
      }
    }
  }

  /** span[..n] plus base[off..off + n], modulo 256, window by window. */
  method AddBase(span: array<Byte>, n: nat, base: seq<Byte>, off: nat)
    requires n <= span.Length && off + n <= |base|
    modifies span
    ensures span[..n] == AddBytes(old(span[..n]), base[off..off + n])
  {
    var window := new Byte[BASE_WINDOW];
    ghost var was := span[..];
    var done := 0;
    while done < n
      invariant 0 <= done <= n
      invariant forall k :: 0 <= k < done ==> span[k] == AddByte(was[k], base[off + k])
      invariant forall k :: done <= k < n ==> span[k] == was[k]
    {
      var chunk := if n - done < window.Length then n - done else window.Length;
      ReadAt(base, off + done, window, chunk);
      AddChunk(span, done, window, chunk);
      done := done + chunk;
    }
    assert forall k :: 0 <= k < n ==> AddBytes(was[..n], base[off..off + n])[k] == AddByte(was[k], base[off + k]);
  }

  /** Reads n base bytes at an offset, which must lie inside the base. */
  method ReadAt(base: seq<Byte>, off: nat, window: array<Byte>, n: nat)
    requires n <= window.Length && off + n <= |base|
    modifies window
    ensures forall j :: 0 <= j < n ==> window[j] == base[off + j]
  {
    var i := 0;
    while i < n
      invariant 0 <= i <= n
      invariant forall j :: 0 <= j < i ==> window[j] == base[off + j]
    {
      window[i] := base[off + i];
      i := i + 1;
    }
  }

  method AddChunk(span: array<Byte>, done: nat, window: array<Byte>, n: nat)
    requires span != window && done + n <= span.Length && n <= window.Length
    modifies span
    ensures forall k :: done <= k < done + n ==> span[k] == AddByte(old(span[k]), window[k - done])
    ensures forall k :: 0 <= k < span.Length && !(done <= k < done + n) ==> span[k] == old(span[k])
  {
    var i := 0;
    while i < n
      invariant 0 <= i <= n
      invariant forall k :: done <= k < done + i ==> span[k] == AddByte(old(span[k]), window[k - done])
      invariant forall k :: 0 <= k < span.Length && !(done <= k < done + i) ==> span[k] == old(span[k])
    {
      span[done + i] := AddByte(span[done + i], window[i]);
      i := i + 1;
    }
  }

  /** One window of a difference run: read, add the base in, hand on. */
  method AddWindow(out: Sink, base: seq<Byte>, diff: Stream, n: nat, at: nat, buf: array<Byte>) returns (ok: bool)
    requires diff.Valid() && n <= buf.Length && at + n <= |base|
    requires |out.written| + n <= out.limit
    modifies out, diff, buf
    ensures diff.Valid()
    ensures ok == (old(diff.pos) + n <= |diff.data|)
    ensures ok ==> diff.pos == old(diff.pos) + n
    ensures ok ==> out.written ==
                   old(out.written) + AddBytes(diff.data[old(diff.pos)..old(diff.pos) + n], base[at..at + n])
    ensures !ok ==> out.written == old(out.written)
  {
    ok := diff.ReadFull(buf, n);
    if ok {
      AddBase(buf, n, base, at);
      ok := out.Write(buf, n);
    }
  }

  /** One difference run: n bytes of base plus differences, through buf. */
  method AddRun(out: Sink, base: seq<Byte>, diff: Stream, n: nat, newPos: nat, basePos: nat, newLen: nat,
                buf: array<Byte>) returns (ok: bool)
    requires diff.Valid() && buf.Length > 0
    requires newPos <= newLen && basePos <= |base|
    requires |out.written| + (newLen - newPos) <= out.limit
    modifies out, diff, buf
    ensures diff.Valid()
    ensures ok == (n <= newLen - newPos && basePos + n <= |base| && old(diff.pos) + n <= |diff.data|)
    ensures ok ==> diff.pos == old(diff.pos) + n
    ensures ok ==> out.written == old(out.written)
                     + AddBytes(diff.data[old(diff.pos)..old(diff.pos) + n], base[basePos..basePos + n])
    ensures |out.written| <= |old(out.written)| + (newLen - newPos)
  {
    if n > newLen - newPos || n > |base| - basePos {
      return false;
    }
    ghost var from, w := diff.pos, out.written;
    var done := 0;
    while done < n
      invariant 0 <= done <= n && diff.Valid()
      invariant diff.pos == from + done
      invariant out.written == w + AddBytes(diff.data[from..from + done], base[basePos..basePos + done])
    {
      var span := if n - done < buf.Length then n - done else buf.Length;
      var full := AddWindow(out, base, diff, span, basePos + done, buf);
      if !full {
        return false;
      }
      AddBytesExtend(diff.data, from, base, basePos, done, span);
      done := done + span;
    }
    return true;
  }

  lemma AddBytesExtend(d: seq<Byte>, from: nat, base: seq<Byte>, basePos: nat, done: nat, span: nat)
    requires from + done + span <= |d| && basePos + done + span <= |base|
    ensures AddBytes(d[from..from + done + span], base[basePos..basePos + done + span])
         == AddBytes(d[from..from + done], base[basePos..basePos + done])
          + AddBytes(d[from + done..from + done + span], base[basePos + done..basePos + done + span])
  {
  }

  /** One literal run: n bytes straight from the patch, through buf. */
  method LiteralRun(out: Sink, extra: Stream, n: nat, newPos: nat, newLen: nat, buf: array<Byte>) returns (ok: bool)
    requires extra.Valid() && buf.Length > 0
    requires newPos <= newLen
    requires |out.written| + (newLen - newPos) <= out.limit
    modifies out, extra, buf
    ensures extra.Valid()
    ensures ok == (n <= newLen - newPos && old(extra.pos) + n <= |extra.data|)
    ensures ok ==> extra.pos == old(extra.pos) + n
    ensures ok ==> out.written == old(out.written) + extra.data[old(extra.pos)..old(extra.pos) + n]
    ensures |out.written| <= |old(out.written)| + (newLen - newPos)
  {
    if n > newLen - newPos {
      return false;
    }
    ghost var from, w := extra.pos, out.written;
    var done := 0;
    while done < n
      invariant 0 <= done <= n && extra.Valid()
      invariant extra.pos == from + done
      invariant out.written == w + extra.data[from..from + done]
    {
      var span := if n - done < buf.Length then n - done else buf.Length;
      var full := extra.ReadFull(buf, span);
      if !full {
        return false;
      }
      var wrote := out.Write(buf, span);
      done := done + span;
    }
    return true;
  }

  /** The next control triple, or nothing when the stream is short or a run
      length does not fit. */
  method ReadControl(ctrl: Stream) returns (r: Option<Entry>)
    requires ctrl.Valid()
    modifies ctrl
    ensures ctrl.Valid()
    ensures r == if |old(ctrl.Rest())| < CONTROL_LEN then None else ParseEntry(old(ctrl.Rest())[..CONTROL_LEN])
    ensures r.Some? ==> ctrl.Rest() == old(ctrl.Rest())[CONTROL_LEN..]
  {
    var buf := new Byte[CONTROL_LEN];
    ghost var from := ctrl.pos;
    var full := ctrl.ReadFull(buf, CONTROL_LEN);
    if !full {
      return None;
    }
    assert ctrl.data[from..][..CONTROL_LEN] == ctrl.data[from..from + CONTROL_LEN];
    assert ctrl.data[from..][CONTROL_LEN..] == ctrl.data[from + CONTROL_LEN..];
    r := ParseEntry(buf[..CONTROL_LEN]);
  }

  /** The reader's wrap-around test, as 64-bit arithmetic runs it. */
  predicate SeekOverflows(basePos: nat, seek: int) {
    var next := WrapInt64(basePos + seek);
    (seek > 0) != (next > basePos) && seek != 0
  }

  /** It fires exactly when the mathematical sum leaves the signed range. */
  lemma SeekOverflowIsExact(basePos: nat, seek: int)
    requires basePos <= MAX_INT64 && FitsInt64(seek)
    ensures SeekOverflows(basePos, seek) <==> !FitsInt64(basePos + seek)
    ensures !SeekOverflows(basePos, seek) ==> WrapInt64(basePos + seek) == basePos + seek
  {
    if FitsInt64(basePos + seek) {
      WrapInt64IsIdentity(basePos + seek);
    } else {
      assert basePos + seek < TWO64;
    }
  }

  /** The meaning of what is still unread: the same as Rebuild, with the
      control stream still in its wire form. */
  ghost function Remaining(base: seq<Byte>, basePos: nat, ctrl: seq<Byte>, diff: seq<Byte>, dp: nat,
                           extra: seq<Byte>, xp: nat, left: nat): Option<seq<Byte>> {
    match ParseEntries(ctrl)
    case None => None
    case Some(es) => Rebuild(base, basePos, es, diff, dp, extra, xp, left)
  }

  /** A control stream that holds no further triple has no meaning left. */
  lemma NoEntryNoMeaning(base: seq<Byte>, basePos: nat, ctrl: seq<Byte>, diff: seq<Byte>, dp: nat,
                         extra: seq<Byte>, xp: nat, left: nat)
    requires left > 0
    requires |ctrl| < CONTROL_LEN || ParseEntry(ctrl[..CONTROL_LEN]).None?
    ensures Remaining(base, basePos, ctrl, diff, dp, extra, xp, left) == None
  {
  }

  /** One turn of the loop, seen from the meaning. */
  lemma RemainingStep(base: seq<Byte>, basePos: nat, ctrl: seq<Byte>, diff: seq<Byte>, dp: nat, extra: seq<Byte>,
                      xp: nat, left: nat, e: Entry)
    requires |ctrl| >= CONTROL_LEN && ParseEntry(ctrl[..CONTROL_LEN]) == Some(e)
    ensures !Runs(e, |base|, basePos, |diff| - dp, |extra| - xp, left) ==>
              Remaining(base, basePos, ctrl, diff, dp, extra, xp, left) == None
    ensures Runs(e, |base|, basePos, |diff| - dp, |extra| - xp, left) ==>
              (Remaining(base, basePos, ctrl, diff, dp, extra, xp, left) ==
               Prepend(Piece(e, base, basePos, diff, dp, extra, xp),
                       Remaining(base, basePos + e.add + e.seek, ctrl[CONTROL_LEN..], diff, dp + e.add,
                                 extra, xp + e.literal, left - e.add - e.literal)))
  {
    if ParseEntries(ctrl).Some? {
      var rest := ParseEntries(ctrl[CONTROL_LEN..]).value;
      var es := ParseEntries(ctrl).value;
      assert es[0] == e && es[1..] == rest;
    }
  }

  lemma RemainingAtEnd(base: seq<Byte>, basePos: nat, ctrl: seq<Byte>, diff: seq<Byte>, dp: nat, extra: seq<Byte>,
                       xp: nat)
    ensures Remaining(base, basePos, ctrl, diff, dp, extra, xp, 0)
         == if ctrl == [] && dp == |diff| && xp == |extra| then Some([]) else None
  {
  }

  lemma PrependNothing(r: Option<seq<Byte>>)
    ensures Prepend([], r) == r
  {
    if r.Some? {
      assert [] + r.value == r.value;
    }
  }

  /** Runs one entry, and refuses it exactly when it does not fit. */
  method RunEntry(e: Entry, base: seq<Byte>, diff: Stream, extra: Stream, out: Sink, newPos: nat, at: nat,
                  newLen: nat, buf: array<Byte>) returns (ok: bool, next: nat)
    requires |base| <= MAX_INT64 && buf.Length > 0 && diff != extra
    requires e.add <= MAX_INT64 && FitsInt64(e.seek)
    requires diff.Valid() && extra.Valid()
    requires newPos < newLen && at <= |base|
    requires |out.written| + (newLen - newPos) <= out.limit
    modifies diff, extra, out, buf
    ensures diff.Valid() && extra.Valid()
    ensures |out.written| <= |old(out.written)| + (newLen - newPos)
    ensures ok <==> Runs(e, |base|, at, |diff.data| - old(diff.pos), |extra.data| - old(extra.pos), newLen - newPos)
    ensures ok ==> next == at + e.add + e.seek
    ensures ok ==> out.written ==
                   old(out.written) + Piece(e, base, at, diff.data, old(diff.pos), extra.data, old(extra.pos))
    ensures ok ==> diff.pos == old(diff.pos) + e.add && extra.pos == old(extra.pos) + e.literal
  {
    ok, next := false, at;
    if e.add == 0 && e.literal == 0 {
      return;
    }
    var added := AddRun(out, base, diff, e.add, newPos, at, newLen, buf);
    if !added {
      return;
    }
    var copied := LiteralRun(out, extra, e.literal, newPos + e.add, newLen, buf);
    if !copied {
      return;
    }
    SeekOverflowIsExact(at + e.add, e.seek);
    if SeekOverflows(at + e.add, e.seek) {
      return;
    }
    var landed := WrapInt64(at + e.add + e.seek);
    if landed < 0 || landed > |base| {
      return;
    }
    ok, next := true, landed;
  }

  /** One turn of the main loop: what was left to mean is what this turn wrote
      followed by what is left now, or nothing if the turn was refused. */
  method Turn(base: seq<Byte>, ctrl: Stream, diff: Stream, extra: Stream, out: Sink, newPos: nat, at: nat,
              newLen: nat, buf: array<Byte>) returns (ok: bool, newPos': nat, at': nat, ghost piece: seq<Byte>)
    requires |base| <= MAX_INT64 && buf.Length > 0
    requires ctrl != diff && ctrl != extra && diff != extra
    requires ctrl.Valid() && diff.Valid() && extra.Valid()
    requires newPos < newLen && at <= |base|
    requires |out.written| + (newLen - newPos) <= out.limit
    modifies ctrl, diff, extra, out, buf
    ensures ctrl.Valid() && diff.Valid() && extra.Valid()
    ensures |out.written| <= |old(out.written)| + (newLen - newPos)
    ensures !ok ==> Remaining(base, at, old(ctrl.Rest()), diff.data, old(diff.pos), extra.data, old(extra.pos),
                              newLen - newPos) == None
    ensures ok ==> newPos < newPos' <= newLen && at' <= |base|
    ensures ok ==> |piece| == newPos' - newPos && out.written == old(out.written) + piece
    ensures ok ==>
              (Remaining(base, at, old(ctrl.Rest()), diff.data, old(diff.pos), extra.data, old(extra.pos),
                         newLen - newPos) ==
               Prepend(piece, Remaining(base, at', ctrl.Rest(), diff.data, diff.pos, extra.data, extra.pos,
                                        newLen - newPos')))
  {
    newPos', at', piece := newPos, at, [];
    ghost var c, d, x, left := ctrl.Rest(), diff.pos, extra.pos, newLen - newPos;
    var entry := ReadControl(ctrl);
    if entry.None? {
      NoEntryNoMeaning(base, at, c, diff.data, d, extra.data, x, left);
      return false, newPos', at', piece;
    }
    var e := entry.value;
    RemainingStep(base, at, c, diff.data, d, extra.data, x, left, e);
    ok, at' := RunEntry(e, base, diff, extra, out, newPos, at, newLen, buf);
    if ok {
      newPos' := newPos + e.add + e.literal;
      piece := Piece(e, base, at, diff.data, d, extra.data, x);
    }
  }

  /** Runs the entries until newLen bytes are out. */
  method RunEntries(base: seq<Byte>, ctrl: Stream, diff: Stream, extra: Stream, out: Sink, newLen: nat)
    returns (ok: bool, ghost basePos: nat)
    requires |base| <= MAX_INT64
    requires ctrl != diff && ctrl != extra && diff != extra
    requires ctrl.pos == 0 && diff.pos == 0 && extra.pos == 0
    requires out.written == [] && newLen <= out.limit
    modifies ctrl, diff, extra, out
    ensures ctrl.Valid() && diff.Valid() && extra.Valid()
    ensures !ok ==> Remaining(base, 0, ctrl.data, diff.data, 0, extra.data, 0, newLen) == None
    ensures ok ==> |out.written| == newLen
    ensures ok ==>
              (Remaining(base, 0, ctrl.data, diff.data, 0, extra.data, 0, newLen) ==
               Prepend(out.written,
                       Remaining(base, basePos, ctrl.Rest(), diff.data, diff.pos, extra.data, extra.pos, 0)))
    ensures |out.written| <= newLen
  {
    var buf := new Byte[COPY_BUFFER_SIZE];
    ghost var whole := Remaining(base, 0, ctrl.data, diff.data, 0, extra.data, 0, newLen);
    PrependNothing(whole);
    assert ctrl.Rest() == ctrl.data;
    var newPos, at := 0, 0;
    while newPos < newLen
      invariant 0 <= newPos <= newLen && 0 <= at <= |base|
      invariant ctrl.Valid() && diff.Valid() && extra.Valid()
      invariant |out.written| == newPos
      invariant whole ==
                Prepend(out.written, Remaining(base, at, ctrl.Rest(), diff.data, diff.pos, extra.data, extra.pos,
                                               newLen - newPos))
      decreases newLen - newPos
    {
      ghost var done, piece := out.written, [];
      ok, newPos, at, piece := Turn(base, ctrl, diff, extra, out, newPos, at, newLen, buf);
      if !ok {
        return false, at;
      }
      PrependTwice(done, piece,
                   Remaining(base, at, ctrl.Rest(), diff.data, diff.pos, extra.data, extra.pos, newLen - newPos));
    }
    return true, at;
  }

  method AtCleanEnd(s: Stream) returns (ok: bool)
    requires s.Valid()
    ensures ok == (s.Rest() == [] && s.clean && s.unread == 0)
  {
    ok := s.pos == |s.data| && s.clean && s.unread == 0;
  }

  /** Applies a patch: what lands in out is the patch's meaning and the call
      succeeds exactly when there is one. Whatever happens, nothing is written
      beyond the declared length, which is itself within maxOut. */
  method ApplyPatchStream(c: Codec, base: seq<Byte>, patch: seq<Byte>, out: Sink, maxOut: int) returns (ok: bool)
    requires |base| <= MAX_INT64
    requires out.written == [] && maxOut <= out.limit
    modifies out
    ensures ok <==> Reconstruct(c, base, patch, maxOut).Some?
    ensures ok ==> Some(out.written) == Reconstruct(c, base, patch, maxOut)
    ensures Split(patch, maxOut).Some? && maxOut > 0 ==> |out.written| <= Split(patch, maxOut).value.newLen <= maxOut
    ensures Split(patch, maxOut).None? || maxOut <= 0 ==> out.written == []
  {
    if maxOut <= 0 {
      return false;
    }
    var split := Split(patch, maxOut);
    if split.None? {
      return false;
    }
    var p := split.value;
    var ctrl := new Stream(c.inflate(p.ctrl));
    var diff := new Stream(c.inflate(p.diff));
    var extra := new Stream(c.inflate(p.extra));
    ghost var basePos;
    ok, basePos := RunEntries(base, ctrl, diff, extra, out, p.newLen);
    if !ok {
      return;
    }
    RemainingAtEnd(base, basePos, ctrl.Rest(), diff.data, diff.pos, extra.data, extra.pos);
    var ctrlEnd := AtCleanEnd(ctrl);
    var diffEnd := AtCleanEnd(diff);
    var extraEnd := AtCleanEnd(extra);
    ok := ctrlEnd && diffEnd && extraEnd;
    assert out.written == out.written + [];
  }

  /** The buffered form. */
  method ApplyPatch(c: Codec, base: seq<Byte>, patch: seq<Byte>, maxOut: int) returns (r: Option<seq<Byte>>)
    requires |base| <= MAX_INT64
    ensures r == Reconstruct(c, base, patch, maxOut)
  {
    var out := new Sink(maxOut);
    var ok := ApplyPatchStream(c, base, patch, out, maxOut);
    r := if ok then Some(out.written) else None;
  }
}
