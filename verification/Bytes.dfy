/** Bytes, 64-bit words and their little-endian wire form, shared by the two
    halves of the delta format. */
module Bytes {

  type Byte = b: int | 0 <= b < 256

  const TWO64: nat := 0x1_0000_0000_0000_0000
  const MAX_INT64: nat := 0x7FFF_FFFF_FFFF_FFFF
  const MIN_INT64: int := -0x8000_0000_0000_0000

  /** A length Go can give a slice: every such length fits a signed 64-bit int. */
  predicate FitsInt64(n: int) {
    MIN_INT64 <= n <= MAX_INT64
  }

  datatype Option<+T> = None | Some(value: T)

  /** The value a two's complement 64-bit addition leaves behind. */
  function WrapInt64(n: int): (r: int)
    ensures FitsInt64(r)
    ensures (r - n) % TWO64 == 0
  {
    var w := n % TWO64;
    if w > MAX_INT64 then w - TWO64 else w
  }

  lemma WrapInt64IsIdentity(n: int)
    requires FitsInt64(n)
    ensures WrapInt64(n) == n
  {
    if n < 0 {
      assert n % TWO64 == (n + TWO64) % TWO64;
    }
  }

  function Pow256(k: nat): nat {
    if k == 0 then 1 else 256 * Pow256(k - 1)
  }

  /** The k low bytes of v, least significant first. */
  function ToLittleEndian(v: nat, k: nat): (s: seq<Byte>)
    ensures |s| == k
  {
    if k == 0 then [] else [v % 256] + ToLittleEndian(v / 256, k - 1)
  }

  function FromLittleEndian(s: seq<Byte>): (v: nat)
    ensures v < Pow256(|s|)
  {
    if s == [] then 0 else s[0] + 256 * FromLittleEndian(s[1..])
  }

  lemma {:induction false} LittleEndianRoundTrip(v: nat, k: nat)
    requires v < Pow256(k)
    ensures FromLittleEndian(ToLittleEndian(v, k)) == v
  {
    if k > 0 {
      LittleEndianRoundTrip(v / 256, k - 1);
      assert ToLittleEndian(v, k)[1..] == ToLittleEndian(v / 256, k - 1);
    }
  }

  /** And the other way round: bytes are the ones their number is written with. */
  lemma {:induction false} LittleEndianOf(s: seq<Byte>)
    ensures ToLittleEndian(FromLittleEndian(s), |s|) == s
    decreases |s|
  {
    if s != [] {
      LittleEndianOf(s[1..]);
      assert s == [s[0]] + s[1..];
    }
  }

  lemma Pow256Of8()
    ensures Pow256(8) == TWO64
  {
    assert Pow256(4) == 0x1_0000_0000;
  }

  /** The eight bytes a machine int goes onto the wire as. */
  function PutInt(n: int): (s: seq<Byte>)
    ensures |s| == 8
  {
    ToLittleEndian(n % TWO64, 8)
  }

  function GetUint64(s: seq<Byte>): (v: nat)
    requires |s| == 8
    ensures v < TWO64
  {
    Pow256Of8();
    FromLittleEndian(s)
  }

  /** The signed reading of the same 64 bits. */
  function AsSigned(v: nat): (n: int)
    requires v < TWO64
    ensures FitsInt64(n)
  {
    if v > MAX_INT64 then v - TWO64 else v
  }

  /** The numbers four and eight bytes make from `at` on, the lowest first. */
  function HalfAt(s: seq<Byte>, at: nat): int
    requires at + 4 <= |s|
  {
    s[at] as int + 0x100 * (s[at + 1] as int) + 0x1_0000 * (s[at + 2] as int) + 0x100_0000 * (s[at + 3] as int)
  }

  function NumberAt(s: seq<Byte>, at: nat): int
    requires at + 8 <= |s|
  {
    HalfAt(s, at) + 0x1_0000_0000 * HalfAt(s, at + 4)
  }

  lemma EightBytes(s: seq<Byte>)
    requires |s| == 8
    ensures GetUint64(s) == NumberAt(s, 0)
  {
    FourBytes(s, 4);
    FourBytes(s, 0);
    assert s[8..] == [] && s[0..] == s;
  }

  lemma FourBytes(s: seq<Byte>, at: nat)
    requires at + 4 <= |s|
    ensures FromLittleEndian(s[at..]) == HalfAt(s, at) + 0x1_0000_0000 * FromLittleEndian(s[at + 4..])
  {
    OneByte(s, at);
    OneByte(s, at + 1);
    OneByte(s, at + 2);
    OneByte(s, at + 3);
  }

  lemma OneByte(s: seq<Byte>, at: nat)
    requires at < |s|
    ensures FromLittleEndian(s[at..]) == s[at] as int + 256 * FromLittleEndian(s[at + 1..])
  {
    assert s[at..][1..] == s[at + 1..];
  }

  /** What an int looks like on the wire. */
  lemma PutIntIs(n: int)
    ensures NumberAt(PutInt(n), 0) == n % TWO64
  {
    Pow256Of8();
    LittleEndianRoundTrip(n % TWO64, 8);
    EightBytes(PutInt(n));
  }

  lemma GetPutRoundTrip(s: seq<Byte>)
    requires |s| == 8
    ensures PutInt(GetUint64(s)) == s && PutInt(AsSigned(GetUint64(s))) == s
  {
    Pow256Of8();
    LittleEndianOf(s);
    var v := GetUint64(s);
    assert v % TWO64 == v && (v - TWO64) % TWO64 == v;
  }

  lemma PutGetRoundTrip(n: int)
    requires FitsInt64(n)
    ensures AsSigned(GetUint64(PutInt(n))) == n
    ensures n >= 0 ==> GetUint64(PutInt(n)) == n
  {
    Pow256Of8();
    LittleEndianRoundTrip(n % TWO64, 8);
    if n < 0 {
      assert n % TWO64 == n + TWO64;
    }
  }
}
