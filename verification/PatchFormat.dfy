/** The delta container: what a patch means.

    A patch is a header and three compressed streams. The control stream is a
    list of entries (add, literal, seek); each one appends `add` bytes that are
    base bytes plus differences, then `literal` bytes verbatim, and then moves
    the read position in the base by `seek`. This module says what that builds;
    how the reader gets there through its windows is module PatchReader. */
module PatchFormat {
  import opened Bytes

  const MAGIC: seq<Byte> := [0x49, 0x44, 0x4E, 0x44, 0x45, 0x4C, 0x54, 0x31]
  const HEADER_LEN := 32
  const CONTROL_LEN := 24

  /** What reading a compressed stream to its end yields: the bytes that come
      out before it stops, whether it stopped at a clean end of stream, and how
      many compressed bytes lie beyond that end. */
  datatype Inflated = Inflated(data: seq<Byte>, clean: bool, unread: nat)

  /** The stream compressor. Nothing is known about it but what a theorem says. */
  datatype Codec = Codec(deflate: seq<Byte> -> seq<Byte>, inflate: seq<Byte> -> Inflated)

  ghost predicate Invertible(c: Codec) {
    forall s: seq<Byte> :: c.inflate(c.deflate(s)) == Inflated(s, true, 0)
  }

  datatype Entry = Entry(add: nat, literal: nat, seek: int)

  /** One control triple. Run lengths beyond the signed range are refused. */
  function ParseEntry(s: seq<Byte>): (r: Option<Entry>)
    requires |s| == CONTROL_LEN
    ensures r.Some? ==> r.value.add <= MAX_INT64 && r.value.literal <= MAX_INT64 && FitsInt64(r.value.seek)
  {
    var add, literal := GetUint64(s[0..8]), GetUint64(s[8..16]);
    if add > MAX_INT64 || literal > MAX_INT64 then None
    else Some(Entry(add, literal, AsSigned(GetUint64(s[16..24]))))
  }

  function PutEntry(e: Entry): (s: seq<Byte>)
    ensures |s| == CONTROL_LEN
  {
    PutInt(e.add) + PutInt(e.literal) + PutInt(e.seek)
  }

  lemma EntryRoundTrip(e: Entry)
    requires e.add <= MAX_INT64 && e.literal <= MAX_INT64 && FitsInt64(e.seek)
    ensures ParseEntry(PutEntry(e)) == Some(e)
  {
    var s := PutEntry(e);
    PutGetRoundTrip(e.add);
    PutGetRoundTrip(e.literal);
    PutGetRoundTrip(e.seek);
    assert s[0..8] == PutInt(e.add);
    assert s[8..16] == PutInt(e.literal);
    assert s[16..24] == PutInt(e.seek);
  }

  /** Nothing else reads as an entry: 24 bytes are one if and only if they are what
      it is written as. */
  lemma EntryExactly(s: seq<Byte>, e: Entry)
    requires |s| == CONTROL_LEN
    ensures ParseEntry(s) == Some(e)
            <==> s == PutEntry(e) && e.add <= MAX_INT64 && e.literal <= MAX_INT64 && FitsInt64(e.seek)
  {
    if ParseEntry(s) == Some(e) {
      GetPutRoundTrip(s[0..8]);
      GetPutRoundTrip(s[8..16]);
      GetPutRoundTrip(s[16..24]);
      assert s == s[0..8] + s[8..16] + s[16..24];
    } else if s == PutEntry(e) && e.add <= MAX_INT64 && e.literal <= MAX_INT64 && FitsInt64(e.seek) {
      EntryRoundTrip(e);
    }
  }

  /** Where the numbers of an entry are: the lengths, and the seek as a signed
      number, each in eight bytes with the lowest first. */
  lemma EntryLayout(e: Entry)
    ensures NumberAt(PutEntry(e), 0) == e.add % TWO64
    ensures NumberAt(PutEntry(e), 8) == e.literal % TWO64
    ensures NumberAt(PutEntry(e), 16) == e.seek % TWO64
  {
    PutIntIs(e.add);
    PutIntIs(e.literal);
    PutIntIs(e.seek);
    var s := PutEntry(e);
    assert s[0..8] == PutInt(e.add) && s[8..16] == PutInt(e.literal) && s[16..24] == PutInt(e.seek);
    NumberIn(s, 0);
    NumberIn(s, 8);
    NumberIn(s, 16);
  }

  lemma NumberIn(s: seq<Byte>, at: nat)
    requires at + 8 <= |s|
    ensures NumberAt(s, at) == NumberAt(s[at..at + 8], 0)
  {
  }

  /** The whole control stream, or nothing when it is not a list of triples. */
  function ParseEntries(ctrl: seq<Byte>): (r: Option<seq<Entry>>)
    ensures r.Some? ==> |ctrl| == CONTROL_LEN * |r.value|
  {
    if ctrl == [] then Some([])
    else if |ctrl| < CONTROL_LEN then None
    else
      var first, rest := ParseEntry(ctrl[..CONTROL_LEN]), ParseEntries(ctrl[CONTROL_LEN..]);
      if first.None? || rest.None? then None else Some([first.value] + rest.value)
  }

  function PutEntries(es: seq<Entry>): (s: seq<Byte>)
    ensures |s| == CONTROL_LEN * |es|
  {
    if es == [] then [] else PutEntries(es[..|es| - 1]) + PutEntry(es[|es| - 1])
  }

  ghost predicate Encodable(es: seq<Entry>) {
    forall i :: 0 <= i < |es| ==>
      es[i].add <= MAX_INT64 && es[i].literal <= MAX_INT64 && FitsInt64(es[i].seek)
  }

  lemma {:induction false} ParseEntriesAppend(a: seq<Byte>, b: seq<Byte>)
    requires ParseEntries(a).Some?
    ensures ParseEntries(b).Some? ==>
              ParseEntries(a + b) == Some(ParseEntries(a).value + ParseEntries(b).value)
  {
    if a == [] {
      assert a + b == b;
      if ParseEntries(b).Some? {
        assert [] + ParseEntries(b).value == ParseEntries(b).value;
      }
    } else {
      ParseEntriesAppend(a[CONTROL_LEN..], b);
      assert (a + b)[..CONTROL_LEN] == a[..CONTROL_LEN];
      assert (a + b)[CONTROL_LEN..] == a[CONTROL_LEN..] + b;
      if ParseEntries(b).Some? {
        var first := ParseEntry(a[..CONTROL_LEN]).value;
        assert [first] + (ParseEntries(a[CONTROL_LEN..]).value + ParseEntries(b).value)
            == ParseEntries(a).value + ParseEntries(b).value;
      }
    }
  }

  lemma ParseOneEntry(e: Entry)
    requires Encodable([e])
    ensures ParseEntries(PutEntry(e)) == Some([e])
  {
    var b := PutEntry(e);
    assert [e][0] == e;
    EntryRoundTrip(e);
    assert b[..CONTROL_LEN] == b;
    var rest := ParseEntries(b[CONTROL_LEN..]);
    assert rest == Some([]);
    assert [e] + rest.value == [e];
  }

  lemma {:induction false} EntriesRoundTrip(es: seq<Entry>)
    requires Encodable(es)
    ensures ParseEntries(PutEntries(es)) == Some(es)
  {
    if es != [] {
      var front, last := es[..|es| - 1], es[|es| - 1];
      EntriesRoundTrip(front);
      ParseOneEntry(last);
      ParseEntriesAppend(PutEntries(front), PutEntry(last));
      assert front + [last] == es;
    }
  }

  lemma {:induction false} PutFront(e: Entry, es: seq<Entry>)
    ensures PutEntries([e] + es) == PutEntry(e) + PutEntries(es)
    decreases |es|
  {
    var all := [e] + es;
    if es == [] {
      assert all[..0] == [] && all[0] == e;
      assert PutEntries(all) == PutEntries(all[..0]) + PutEntry(e) == PutEntry(e);
    } else {
      var n := |es| - 1;
      PutFront(e, es[..n]);
      assert all[..|all| - 1] == [e] + es[..n] && all[|all| - 1] == es[n];
      assert PutEntry(e) + (PutEntries(es[..n]) + PutEntry(es[n])) == PutEntry(e) + PutEntries(es[..n]) + PutEntry(es[n]);
    }
  }

  /** A control stream reads as these entries if and only if it is how they are
      written. */
  lemma {:induction false} EntriesExactly(ctrl: seq<Byte>, es: seq<Entry>)
    ensures ParseEntries(ctrl) == Some(es) <==> ctrl == PutEntries(es) && Encodable(es)
    decreases |ctrl|
  {
    if ParseEntries(ctrl) == Some(es) && ctrl != [] {
      EntryExactly(ctrl[..CONTROL_LEN], es[0]);
      assert ParseEntries(ctrl[CONTROL_LEN..]) == Some(es[1..]);
      EntriesExactly(ctrl[CONTROL_LEN..], es[1..]);
      PutFront(es[0], es[1..]);
      assert es == [es[0]] + es[1..] && ctrl == ctrl[..CONTROL_LEN] + ctrl[CONTROL_LEN..];
    } else if ctrl == PutEntries(es) && Encodable(es) {
      EntriesRoundTrip(es);
    }
  }

  function AddByte(a: int, b: int): Byte {
    (a + b) % 256
  }

  /** Byte-wise sum modulo 256: what a difference run adds to the base. */
  function AddBytes(a: seq<Byte>, b: seq<Byte>): (s: seq<Byte>)
    requires |a| == |b|
    ensures |s| == |a|
  {
    seq(|a|, i requires 0 <= i < |a| => AddByte(a[i], b[i]))
  }

  lemma AddBytesAt(a: seq<Byte>, b: seq<Byte>, i: nat)
    requires |a| == |b| && i < |a|
    ensures AddBytes(a, b)[i] == (a[i] as int + b[i] as int) % 256
  {
  }

  function Prepend(s: seq<Byte>, r: Option<seq<Byte>>): Option<seq<Byte>> {
    match r
    case None => None
    case Some(t) => Some(s + t)
  }

  lemma PrependTwice(s: seq<Byte>, t: seq<Byte>, r: Option<seq<Byte>>)
    ensures Prepend(s + t, r) == Prepend(s, Prepend(t, r))
  {
    if r.Some? {
      assert (s + t) + r.value == s + (t + r.value);
    }
  }

  /** Whether the next entry may run from here, given how much is left of the
      base, of the two data streams and of the output. */
  predicate Runs(e: Entry, baseLen: nat, basePos: nat, diffLeft: int, extraLeft: int, left: nat) {
    && 0 < e.add + e.literal <= left
    && basePos + e.add <= baseLen
    && e.add <= diffLeft
    && e.literal <= extraLeft
    && 0 <= basePos + e.add + e.seek <= baseLen
  }

  /** The bytes one entry appends. */
  function Piece(e: Entry, base: seq<Byte>, basePos: nat, diff: seq<Byte>, dp: nat, extra: seq<Byte>, xp: nat)
    : (p: seq<Byte>)
    requires basePos + e.add <= |base| && dp + e.add <= |diff| && xp + e.literal <= |extra|
    ensures |p| == e.add + e.literal
  {
    AddBytes(diff[dp..dp + e.add], base[basePos..basePos + e.add]) + extra[xp..xp + e.literal]
  }

  /** What a list of entries builds from these positions on: exactly `left`
      bytes, using up both data streams, or nothing at all. */
  function Rebuild(base: seq<Byte>, basePos: nat, es: seq<Entry>, diff: seq<Byte>, dp: nat, extra: seq<Byte>, xp: nat,
                   left: nat): (r: Option<seq<Byte>>)
    ensures r.Some? ==> |r.value| == left
    decreases |es|
  {
    if es == [] then
      if left == 0 && dp == |diff| && xp == |extra| then Some([]) else None
    else if !Runs(es[0], |base|, basePos, |diff| - dp, |extra| - xp, left) then None
    else
      var e := es[0];
      Prepend(Piece(e, base, basePos, diff, dp, extra, xp),
              Rebuild(base, basePos + e.add + e.seek, es[1..], diff, dp + e.add, extra, xp + e.literal,
                      left - e.add - e.literal))
  }

  // A closed form of the same acceptance, with no running state.

  function SumAdd(es: seq<Entry>): nat {
    if es == [] then 0 else es[0].add + SumAdd(es[1..])
  }

  function SumLiteral(es: seq<Entry>): nat {
    if es == [] then 0 else es[0].literal + SumLiteral(es[1..])
  }

  /** Where the base position stands after all of es. */
  function Landing(start: int, es: seq<Entry>): int
    decreases |es|
  {
    if es == [] then start else Landing(start + es[0].add + es[0].seek, es[1..])
  }

  /** Every entry produces something, its difference run lies inside the base,
      and so does the place its seek lands on. */
  ghost predicate StaysInBase(es: seq<Entry>, start: nat, baseLen: nat) {
    forall i :: 0 <= i < |es| ==>
      && 0 < es[i].add + es[i].literal
      && 0 <= Landing(start, es[..i])
      && Landing(start, es[..i]) + es[i].add <= baseLen
      && 0 <= Landing(start, es[..i]) + es[i].add + es[i].seek <= baseLen
  }

  lemma StaysInBaseStep(es: seq<Entry>, start: nat, baseLen: nat)
    requires es != [] && 0 < es[0].add + es[0].literal
    requires start + es[0].add <= baseLen && 0 <= start + es[0].add + es[0].seek <= baseLen
    ensures StaysInBase(es, start, baseLen) <==>
            StaysInBase(es[1..], start + es[0].add + es[0].seek, baseLen)
  {
    var next := start + es[0].add + es[0].seek;
    forall i | 0 <= i < |es| - 1
      ensures Landing(next, es[1..][..i]) == Landing(start, es[..i + 1])
    {
      assert es[..i + 1][1..] == es[1..][..i];
    }
    if StaysInBase(es[1..], next, baseLen) {
      forall i | 0 <= i < |es|
        ensures 0 < es[i].add + es[i].literal && 0 <= Landing(start, es[..i])
        ensures Landing(start, es[..i]) + es[i].add <= baseLen
        ensures 0 <= Landing(start, es[..i]) + es[i].add + es[i].seek <= baseLen
      {
        if i == 0 {
          assert es[..0] == [];
        } else {
          assert es[1..][i - 1] == es[i];
          assert Landing(next, es[1..][..i - 1]) == Landing(start, es[..i]);
        }
      }
    }
    if StaysInBase(es, start, baseLen) {
      forall i | 0 <= i < |es| - 1
        ensures 0 < es[1..][i].add + es[1..][i].literal && 0 <= Landing(next, es[1..][..i])
        ensures Landing(next, es[1..][..i]) + es[1..][i].add <= baseLen
        ensures 0 <= Landing(next, es[1..][..i]) + es[1..][i].add + es[1..][i].seek <= baseLen
      {
        assert es[1..][i] == es[i + 1];
        assert Landing(next, es[1..][..i]) == Landing(start, es[..i + 1]);
      }
    }
  }

  /** Acceptance is exactly: every entry fits the base, and the three totals
      (output, differences, literals) come out to the byte. */
  lemma {:induction false} RebuildSucceedsExactly(
    base: seq<Byte>, basePos: nat, es: seq<Entry>, diff: seq<Byte>, dp: nat, extra: seq<Byte>, xp: nat, left: nat)
    ensures Rebuild(base, basePos, es, diff, dp, extra, xp, left).Some? <==>
            (&& StaysInBase(es, basePos, |base|)
             && SumAdd(es) == |diff| - dp && SumLiteral(es) == |extra| - xp && SumAdd(es) + SumLiteral(es) == left)
    decreases |es|
  {
    if es != [] {
      var e := es[0];
      if Runs(e, |base|, basePos, |diff| - dp, |extra| - xp, left) {
        StaysInBaseStep(es, basePos, |base|);
        RebuildSucceedsExactly(base, basePos + e.add + e.seek, es[1..], diff, dp + e.add, extra, xp + e.literal,
                               left - e.add - e.literal);
      } else if StaysInBase(es, basePos, |base|) {
        FirstFits(es, basePos, |base|);
      }
    }
  }

  lemma FirstFits(es: seq<Entry>, start: nat, baseLen: nat)
    requires es != [] && StaysInBase(es, start, baseLen)
    ensures 0 < es[0].add + es[0].literal && start + es[0].add <= baseLen
    ensures 0 <= start + es[0].add + es[0].seek <= baseLen
  {
    assert es[..0] == [];
    assert Landing(start, es[..0]) == start;
  }

  /** The header and the three streams, still compressed. */
  datatype Container = Container(newLen: nat, ctrl: seq<Byte>, diff: seq<Byte>, extra: seq<Byte>)

  function Split(patch: seq<Byte>, maxOut: int): (r: Option<Container>)
    ensures r.Some? ==> r.value.newLen <= maxOut && r.value.newLen <= MAX_INT64
  {
    if |patch| < HEADER_LEN || patch[..8] != MAGIC then None else
    var newLen, ctrlLen, diffLen := GetUint64(patch[8..16]), GetUint64(patch[16..24]), GetUint64(patch[24..32]);
    var body := patch[HEADER_LEN..];
    if newLen > MAX_INT64 || ctrlLen > MAX_INT64 || diffLen > MAX_INT64 then None
    else if newLen > maxOut || ctrlLen > |body| || diffLen > |body| - ctrlLen then None
    else Some(Container(newLen, body[..ctrlLen], body[ctrlLen..ctrlLen + diffLen], body[ctrlLen + diffLen..]))
  }

  function Assemble(newLen: nat, ctrl: seq<Byte>, diff: seq<Byte>, extra: seq<Byte>): seq<Byte> {
    MAGIC + PutInt(newLen) + PutInt(|ctrl|) + PutInt(|diff|) + ctrl + diff + extra
  }

  lemma AssembleSplit(newLen: nat, ctrl: seq<Byte>, diff: seq<Byte>, extra: seq<Byte>, maxOut: int)
    requires newLen <= MAX_INT64 && |ctrl| <= MAX_INT64 && |diff| <= MAX_INT64
    requires newLen <= maxOut
    ensures Split(Assemble(newLen, ctrl, diff, extra), maxOut) == Some(Container(newLen, ctrl, diff, extra))
  {
    var p := Assemble(newLen, ctrl, diff, extra);
    PutGetRoundTrip(newLen);
    PutGetRoundTrip(|ctrl|);
    PutGetRoundTrip(|diff|);
    HeaderSlices(newLen, ctrl, diff, extra);
    BodySlices(ctrl, diff, extra);
  }

  /** Nothing else is taken apart: a patch is accepted if and only if it is those
      parts put together, with lengths within the signed range and the bound. */
  lemma SplitExactly(patch: seq<Byte>, maxOut: int, p: Container)
    ensures Split(patch, maxOut) == Some(p)
            <==> (&& patch == Assemble(p.newLen, p.ctrl, p.diff, p.extra)
                  && p.newLen <= maxOut && p.newLen <= MAX_INT64 && |p.ctrl| <= MAX_INT64 && |p.diff| <= MAX_INT64)
  {
    if Split(patch, maxOut) == Some(p) {
      SplitAssembles(patch, maxOut, p);
    } else if patch == Assemble(p.newLen, p.ctrl, p.diff, p.extra)
              && p.newLen <= maxOut && p.newLen <= MAX_INT64 && |p.ctrl| <= MAX_INT64 && |p.diff| <= MAX_INT64 {
      AssembleSplit(p.newLen, p.ctrl, p.diff, p.extra, maxOut);
    }
  }

  lemma SplitAssembles(patch: seq<Byte>, maxOut: int, p: Container)
    requires Split(patch, maxOut) == Some(p)
    ensures patch == Assemble(p.newLen, p.ctrl, p.diff, p.extra)
    ensures p.newLen <= maxOut && p.newLen <= MAX_INT64 && |p.ctrl| <= MAX_INT64 && |p.diff| <= MAX_INT64
  {
    GetPutRoundTrip(patch[8..16]);
    GetPutRoundTrip(patch[16..24]);
    GetPutRoundTrip(patch[24..32]);
    var body := patch[HEADER_LEN..];
    var n, m := |p.ctrl|, |p.ctrl| + |p.diff|;
    assert body == body[..n] + body[n..m] + body[m..];
    var head := patch[..8] + patch[8..16] + patch[16..24] + patch[24..32];
    HeaderParts(patch);
    Flatten(head, body[..n], body[n..m], body[m..]);
  }

  lemma HeaderParts(patch: seq<Byte>)
    requires |patch| >= HEADER_LEN
    ensures patch == patch[..8] + patch[8..16] + patch[16..24] + patch[24..32] + patch[HEADER_LEN..]
  {
  }

  lemma Flatten(a: seq<Byte>, b: seq<Byte>, c: seq<Byte>, d: seq<Byte>)
    ensures a + (b + c + d) == a + b + c + d
  {
  }

  /** Where everything is: the tag, three lengths in eight bytes each, lowest first,
      and the streams, of which the last has no length of its own. */
  lemma ContainerLayout(newLen: nat, ctrl: seq<Byte>, diff: seq<Byte>, extra: seq<Byte>)
    requires newLen < TWO64 && |ctrl| < TWO64 && |diff| < TWO64
    ensures var p := Assemble(newLen, ctrl, diff, extra);
            && |p| == 32 + |ctrl| + |diff| + |extra| && p[32..] == ctrl + diff + extra
            && (forall i :: 0 <= i < 8 ==> p[i] == "IDNDELT1"[i] as int)
            && NumberAt(p, 8) == newLen && NumberAt(p, 16) == |ctrl| && NumberAt(p, 24) == |diff|
  {
    var p := Assemble(newLen, ctrl, diff, extra);
    HeaderSlices(newLen, ctrl, diff, extra);
    forall i | 0 <= i < 8
      ensures p[i] == "IDNDELT1"[i] as int
    {
      assert p[..8][i] == MAGIC[i];
      MagicSpells(i);
    }
    FieldAt(p, 8, newLen);
    FieldAt(p, 16, |ctrl|);
    FieldAt(p, 24, |diff|);
  }

  lemma FieldAt(p: seq<Byte>, at: nat, n: nat)
    requires at + 8 <= |p| && p[at..at + 8] == PutInt(n) && n < TWO64
    ensures NumberAt(p, at) == n
  {
    PutIntIs(n);
    NumberIn(p, at);
  }

  lemma MagicSpells(i: nat)
    requires i < 8
    ensures MAGIC[i] == "IDNDELT1"[i] as int
  {
  }

  lemma HeaderSlices(newLen: nat, ctrl: seq<Byte>, diff: seq<Byte>, extra: seq<Byte>)
    ensures var p := Assemble(newLen, ctrl, diff, extra);
            && |p| == HEADER_LEN + |ctrl| + |diff| + |extra|
            && p[..8] == MAGIC
            && p[8..16] == PutInt(newLen) && p[16..24] == PutInt(|ctrl|) && p[24..32] == PutInt(|diff|)
            && p[HEADER_LEN..] == ctrl + diff + extra
  {
    var head := MAGIC + PutInt(newLen) + PutInt(|ctrl|) + PutInt(|diff|);
    var p := Assemble(newLen, ctrl, diff, extra);
    assert p == head + (ctrl + diff + extra);
    assert head[..8] == MAGIC;
    assert head[8..16] == PutInt(newLen) && head[16..24] == PutInt(|ctrl|) && head[24..32] == PutInt(|diff|);
  }

  lemma BodySlices(ctrl: seq<Byte>, diff: seq<Byte>, extra: seq<Byte>)
    ensures var body := ctrl + diff + extra;
            && body[..|ctrl|] == ctrl
            && body[|ctrl|..|ctrl| + |diff|] == diff
            && body[|ctrl| + |diff|..] == extra
  {
  }

  /** What applying a patch to a base builds, or nothing when it is refused. */
  function Reconstruct(c: Codec, base: seq<Byte>, patch: seq<Byte>, maxOut: int): (r: Option<seq<Byte>>)
    ensures r.Some? ==> |r.value| <= maxOut
  {
    if maxOut <= 0 then None else
    match Split(patch, maxOut)
    case None => None
    case Some(p) =>
      var ctrl, diff, extra := c.inflate(p.ctrl), c.inflate(p.diff), c.inflate(p.extra);
      match ParseEntries(ctrl.data)
      case None => None
      case Some(es) =>
        if EndsCleanly(ctrl) && EndsCleanly(diff) && EndsCleanly(extra)
        then Rebuild(base, 0, es, diff.data, 0, extra.data, 0, p.newLen)
        else None
  }

  /** A patch put together from these parts: its streams end cleanly and leave
      nothing over, the control stream is these entries, they stay inside the base,
      and the lengths add up. */
  ghost predicate Acceptable(c: Codec, baseLen: nat, patch: seq<Byte>, maxOut: int, p: Container, es: seq<Entry>) {
    && 0 < maxOut && p.newLen <= maxOut && p.newLen <= MAX_INT64 && |p.ctrl| <= MAX_INT64 && |p.diff| <= MAX_INT64
    && patch == Assemble(p.newLen, p.ctrl, p.diff, p.extra)
    && c.inflate(p.ctrl) == Inflated(PutEntries(es), true, 0) && Encodable(es)
    && c.inflate(p.diff) == Inflated(c.inflate(p.diff).data, true, 0)
    && c.inflate(p.extra) == Inflated(c.inflate(p.extra).data, true, 0)
    && StaysInBase(es, 0, baseLen)
    && SumAdd(es) == |c.inflate(p.diff).data| && SumLiteral(es) == |c.inflate(p.extra).data|
    && SumAdd(es) + SumLiteral(es) == p.newLen
  }

  /** A patch is accepted if and only if it is one like that. */
  lemma AcceptedExactly(c: Codec, base: seq<Byte>, patch: seq<Byte>, maxOut: int)
    ensures Reconstruct(c, base, patch, maxOut).Some?
            <==> exists p, es :: Acceptable(c, |base|, patch, maxOut, p, es)
  {
    if Reconstruct(c, base, patch, maxOut).Some? {
      var p := Split(patch, maxOut).value;
      var es := ParseEntries(c.inflate(p.ctrl).data).value;
      SplitExactly(patch, maxOut, p);
      EntriesExactly(c.inflate(p.ctrl).data, es);
      RebuildSucceedsExactly(base, 0, es, c.inflate(p.diff).data, 0, c.inflate(p.extra).data, 0, p.newLen);
      assert Acceptable(c, |base|, patch, maxOut, p, es);
    }
    forall p, es | Acceptable(c, |base|, patch, maxOut, p, es)
      ensures Reconstruct(c, base, patch, maxOut).Some?
    {
      SplitExactly(patch, maxOut, p);
      EntriesExactly(c.inflate(p.ctrl).data, es);
      RebuildSucceedsExactly(base, 0, es, c.inflate(p.diff).data, 0, c.inflate(p.extra).data, 0, p.newLen);
    }
  }

  predicate EndsCleanly(s: Inflated) {
    s.clean && s.unread == 0
  }

  /** The patch makes newer of older, under every bound that admits newer. */
  ghost predicate Turns(c: Codec, older: seq<Byte>, newer: seq<Byte>, patch: seq<Byte>) {
    forall maxOut: int | maxOut > 0 && maxOut >= |newer| :: Reconstruct(c, older, patch, maxOut) == Some(newer)
  }
}
