/** Version precedence: which strings are versions, how they are taken apart, and
    the order downgrade protection, planning and garbage collection rest on. */
module Semver {
  import opened Bytes
  import opened Decimal
  import Ordering

  const MAX_UINT64: nat := TWO64 - 1

  // Strings.

  predicate IsDigit(c: char) {
    '0' <= c <= '9'
  }

  predicate IsIdentChar(c: char) {
    IsDigit(c) || 'a' <= c <= 'z' || 'A' <= c <= 'Z' || c == '.' || c == '-'
  }

  predicate AllDigits(s: string) {
    s != "" && Digits(s)
  }

  predicate AllIdent(s: string) {
    s != "" && forall i :: 0 <= i < |s| ==> IsIdentChar(s[i])
  }

  /** Where c first stands in s, or the length of s. */
  function IndexOf(s: string, c: char): (i: nat)
    ensures i <= |s|
    ensures i < |s| ==> s[i] == c
    ensures c !in s[..i]
  {
    if s == "" || s[0] == c then 0 else 1 + IndexOf(s[1..], c)
  }

  /** The part before the first c, and what follows it if there is one. */
  function Cut(s: string, c: char): (string, Option<string>) {
    var i := IndexOf(s, c);
    if i == |s| then (s, None) else (s[..i], Some(s[i + 1..]))
  }

  function Split(s: string, c: char): (fields: seq<string>)
    ensures |fields| > 0
    decreases |s|
  {
    var i := IndexOf(s, c);
    if i == |s| then [s] else [s[..i]] + Split(s[i + 1..], c)
  }

  // Versions.

  /** The accepted spelling: three runs of digits, an optional pre-release and
      optional build metadata. */
  predicate ValidVersion(v: string) {
    var (head, build) := Cut(v, '+');
    var (core, pre) := Cut(head, '-');
    var fields := Split(core, '.');
    && |fields| == 3
    && AllDigits(fields[0]) && AllDigits(fields[1]) && AllDigits(fields[2])
    && (pre.Some? ==> AllIdent(pre.value))
    && (build.Some? ==> AllIdent(build.value))
  }

  type Version = v: string | ValidVersion(v) witness FirstVersion()

  lemma {:induction false} IndexIs(s: string, i: nat, c: char)
    requires i < |s| && s[i] == c && forall j :: 0 <= j < i ==> s[j] != c
    ensures IndexOf(s, c) == i
    decreases i
  {
    if i > 0 {
      IndexIs(s[1..], i - 1, c);
    }
  }

  lemma AbsentIsUncut(s: string, c: char)
    requires c !in s
    ensures Cut(s, c) == (s, None)
  {
  }

  function FirstVersion(): (v: string)
    ensures ValidVersion(v)
  {
    var first := Parsed([0, 0, 0], []);
    ParseRoundTrip(first, None);
    Spell(first, None)
  }

  datatype Parsed = Parsed(nums: seq<nat>, pre: seq<string>)

  /** An unsigned 64-bit parse of a decimal field. */
  function ParseUint(s: string): Option<nat> {
    if AllDigits(s) && Number(s) <= MAX_UINT64 then Some(Number(s)) else None
  }

  function Saturating(s: string): (n: nat)
    ensures n <= MAX_UINT64
  {
    match ParseUint(s)
    case Some(n) => n
    case None => MAX_UINT64
  }

  /** Core numbers and pre-release identifiers; build metadata is dropped. */
  function Parse(v: string): (p: Parsed)
    requires ValidVersion(v)
    ensures |p.nums| == 3
  {
    var (head, _) := Cut(v, '+');
    var (core, pre) := Cut(head, '-');
    var fields := Split(core, '.');
    Parsed([Saturating(fields[0]), Saturating(fields[1]), Saturating(fields[2])],
           match pre case None => [] case Some(s) => Split(s, '.'))
  }

  method ParseVersion(v: string) returns (p: Parsed)
    requires ValidVersion(v)
    ensures p == Parse(v)
  {
    var (head, _) := Cut(v, '+');
    var (core, pre) := Cut(head, '-');
    var fields := Split(core, '.');
    var nums: seq<nat> := [0, 0, 0];
    for i := 0 to 3
      invariant |nums| == 3
      invariant forall j :: 0 <= j < i ==> nums[j] == Saturating(fields[j])
    {
      var n := ParseUint(fields[i]);
      nums := nums[i := if n.Some? then n.value else MAX_UINT64];
    }
    p := Parsed(nums, match pre case None => [] case Some(s) => Split(s, '.'));
  }

  // Spelling a version and parsing it back.

  function Join(fields: seq<string>, c: char): string
    requires fields != []
  {
    if |fields| == 1 then fields[0] else fields[0] + [c] + Join(fields[1..], c)
  }

  /** A version spelled from its parts, with build metadata if there is any. */
  function Spell(p: Parsed, build: Option<string>): string
    requires |p.nums| == 3
  {
    var core := Join([Show(p.nums[0]), Show(p.nums[1]), Show(p.nums[2])], '.');
    var head := if p.pre == [] then core else core + "-" + Join(p.pre, '.');
    if build.None? then head else head + "+" + build.value
  }

  lemma CutAt(s: string, c: char, t: string)
    requires c !in s
    ensures Cut(s + [c] + t, c) == (s, Some(t))
  {
    var all := s + [c] + t;
    forall i | 0 <= i < |s|
      ensures all[i] != c
    {
      assert all[i] == s[i] && s[i] in s;
    }
    IndexIs(all, |s|, c);
    assert all[..|s|] == s && all[|s| + 1..] == t;
  }

  lemma {:induction false} SplitJoin(fields: seq<string>, c: char)
    requires fields != [] && forall i :: 0 <= i < |fields| ==> c !in fields[i]
    ensures Split(Join(fields, c), c) == fields
    decreases |fields|
  {
    if |fields| == 1 {
      assert fields == [fields[0]];
    } else {
      SplitJoin(fields[1..], c);
      CutAt(fields[0], c, Join(fields[1..], c));
      assert fields == [fields[0]] + fields[1..];
    }
  }

  lemma {:induction false} JoinHas(fields: seq<string>, c: char, x: char)
    requires fields != [] && x != c && forall i :: 0 <= i < |fields| ==> x !in fields[i]
    ensures x !in Join(fields, c)
    decreases |fields|
  {
    if |fields| > 1 {
      JoinHas(fields[1..], c, x);
    }
  }

  /** The identifiers of a pre-release: not empty, and without a dot. */
  ghost predicate Idents(pre: seq<string>) {
    forall i :: 0 <= i < |pre| ==> AllIdent(pre[i]) && '.' !in pre[i]
  }

  lemma {:induction false} JoinIdent(fields: seq<string>)
    requires fields != [] && Idents(fields)
    ensures AllIdent(Join(fields, '.'))
    decreases |fields|
  {
    if |fields| > 1 {
      JoinIdent(fields[1..]);
    }
  }

  lemma IdentHasNoPlus(s: string)
    requires AllIdent(s)
    ensures '+' !in s
  {
  }

  lemma DigitsAlone(s: string)
    requires Digits(s)
    ensures '.' !in s && '-' !in s && '+' !in s
  {
  }

  /** What is spelled from parts parses back to those parts, whatever build
      metadata follows: three numbers within 64 bits, and any identifiers. */
  lemma ParseRoundTrip(p: Parsed, build: Option<string>)
    requires |p.nums| == 3 && (forall i :: 0 <= i < 3 ==> p.nums[i] <= MAX_UINT64)
    requires Idents(p.pre) && (build.Some? ==> AllIdent(build.value))
    ensures ValidVersion(Spell(p, build)) && Parse(Spell(p, build)) == p
  {
    var fields := [Show(p.nums[0]), Show(p.nums[1]), Show(p.nums[2])];
    CoreRoundTrip(p.nums, fields);
    var core := Join(fields, '.');
    var pre := if p.pre == [] then None else Some(Join(p.pre, '.'));
    var head := if p.pre == [] then core else core + "-" + Join(p.pre, '.');
    if p.pre == [] {
      AbsentIsUncut(core, '-');
    } else {
      JoinIdent(p.pre);
      IdentHasNoPlus(Join(p.pre, '.'));
      CutAt(core, '-', Join(p.pre, '.'));
      SplitJoin(p.pre, '.');
    }
    assert '+' !in head;
    if build.Some? {
      CutAt(head, '+', build.value);
    } else {
      AbsentIsUncut(head, '+');
    }
  }

  lemma CoreRoundTrip(nums: seq<nat>, fields: seq<string>)
    requires |nums| == 3 && (forall i :: 0 <= i < 3 ==> nums[i] <= MAX_UINT64)
    requires fields == [Show(nums[0]), Show(nums[1]), Show(nums[2])]
    ensures Split(Join(fields, '.'), '.') == fields && '-' !in Join(fields, '.') && '+' !in Join(fields, '.')
    ensures forall i :: 0 <= i < 3 ==> AllDigits(fields[i]) && Saturating(fields[i]) == nums[i]
  {
    forall i | 0 <= i < 3
      ensures AllDigits(fields[i]) && Saturating(fields[i]) == nums[i]
      ensures '.' !in fields[i] && '-' !in fields[i] && '+' !in fields[i]
    {
      ShowNumber(nums[i]);
      DigitsAlone(fields[i]);
    }
    SplitJoin(fields, '.');
    JoinHas(fields, '.', '-');
    JoinHas(fields, '.', '+');
  }

  // The grammar of the accepted spelling.

  predicate Numeral(s: string) {
    s != "" && forall i :: 0 <= i < |s| ==> '0' <= s[i] <= '9'
  }

  predicate Word(s: string) {
    s != "" && forall i :: 0 <= i < |s| ==> WordChar(s[i])
  }

  predicate WordChar(c: char) {
    || ('0' <= c <= '9') || ('A' <= c <= 'Z') || ('a' <= c <= 'z') || c == '.' || c == '-'
  }

  function Tail(mark: char, s: Option<string>): string {
    if s.None? then "" else [mark] + s.value
  }

  ghost predicate Spells(v: string, a: string, b: string, c: string, pre: Option<string>, build: Option<string>) {
    && v == a + "." + b + "." + c + Tail('-', pre) + Tail('+', build)
    && Numeral(a) && Numeral(b) && Numeral(c)
    && (pre.Some? ==> Word(pre.value)) && (build.Some? ==> Word(build.value))
  }

  lemma CutSpelled(s: string, c: char)
    ensures var (front, back) := Cut(s, c); s == front + Tail(c, back) && c !in front
  {
    var i := IndexOf(s, c);
    if i < |s| {
      assert s == s[..i] + ([s[i]] + s[i + 1..]);
    } else {
      assert s[..i] == s && s == s + "";
    }
  }

  /** Joining what was split gives it back. */
  lemma {:induction false} JoinSplit(s: string, c: char)
    ensures Join(Split(s, c), c) == s
    decreases |s|
  {
    var i := IndexOf(s, c);
    if i < |s| {
      var rest := s[i + 1..];
      JoinSplit(rest, c);
      assert Split(s, c)[1..] == Split(rest, c);
      assert s == s[..i] + [c] + rest;
    }
  }

  lemma JoinThree(fields: seq<string>, c: char)
    requires |fields| == 3
    ensures Join(fields, c) == fields[0] + [c] + fields[1] + [c] + fields[2]
  {
    var rest := fields[1..];
    assert Join(rest, c) == rest[0] + [c] + Join(rest[1..], c);
    assert Join(rest[1..], c) == fields[2];
    Regroup(fields[0], [c], fields[1], [c], fields[2]);
  }

  lemma Regroup(a: string, b: string, c: string, d: string, e: string)
    ensures a + b + (c + d + e) == a + b + c + d + e
  {
  }

  /** A string is taken for a version if and only if the grammar has it: three
      numerals between dots, and behind a hyphen and a plus what each may hold. */
  lemma ValidExactly(v: string)
    ensures ValidVersion(v) <==> exists a, b, c, pre, build :: Spells(v, a, b, c, pre, build)
  {
    if ValidVersion(v) {
      var (head, build) := Cut(v, '+');
      var (core, pre) := Cut(head, '-');
      var f := Split(core, '.');
      CutSpelled(v, '+');
      CutSpelled(head, '-');
      if pre.Some? {
        WordIsIdent(pre.value);
      }
      if build.Some? {
        WordIsIdent(build.value);
      }
      JoinSplit(core, '.');
      JoinThree(f, '.');
      assert Spells(v, f[0], f[1], f[2], pre, build);
    }
    forall a, b, c, pre, build | Spells(v, a, b, c, pre, build)
      ensures ValidVersion(v)
    {
      SpelledIsValid(v, a, b, c, pre, build);
    }
  }

  lemma SpelledIsValid(v: string, a: string, b: string, c: string, pre: Option<string>, build: Option<string>)
    requires Spells(v, a, b, c, pre, build)
    ensures ValidVersion(v)
  {
    var core := CoreSpelled(a, b, c);
    var head := core + Tail('-', pre);
    assert v == head + Tail('+', build);
    CutTail(core, '-', pre);
    NoPlus(core, pre);
    CutTail(head, '+', build);
    if pre.Some? {
      WordIsIdent(pre.value);
    }
    if build.Some? {
      WordIsIdent(build.value);
    }
  }

  lemma CoreSpelled(a: string, b: string, c: string) returns (core: string)
    requires Numeral(a) && Numeral(b) && Numeral(c)
    ensures core == a + "." + b + "." + c && Split(core, '.') == [a, b, c] && '-' !in core && '+' !in core
    ensures AllDigits(a) && AllDigits(b) && AllDigits(c)
  {
    var fields := [a, b, c];
    DigitsAlone(a);
    DigitsAlone(b);
    DigitsAlone(c);
    SplitJoin(fields, '.');
    JoinHas(fields, '.', '-');
    JoinHas(fields, '.', '+');
    JoinThree(fields, '.');
    core := Join(fields, '.');
  }

  lemma WordIsIdent(s: string)
    ensures Word(s) <==> AllIdent(s)
  {
    assert forall c :: WordChar(c) <==> IsIdentChar(c);
    if Word(s) {
      assert forall i :: 0 <= i < |s| ==> WordChar(s[i]);
    }
    if AllIdent(s) {
      assert forall i :: 0 <= i < |s| ==> IsIdentChar(s[i]);
    }
  }

  lemma NoPlus(core: string, pre: Option<string>)
    requires '+' !in core && (pre.Some? ==> Word(pre.value))
    ensures '+' !in core + Tail('-', pre)
  {
    if pre.Some? {
      assert forall i :: 0 <= i < |pre.value| ==> WordChar(pre.value[i]);
    }
  }

  lemma Glue(a: string, b: string, c: string)
    ensures a + (b + c) == a + b + c
  {
  }

  lemma CutTail(s: string, c: char, t: Option<string>)
    requires c !in s
    ensures Cut(s + Tail(c, t), c) == (s, t)
  {
    if t.Some? {
      CutAt(s, c, t.value);
      Glue(s, [c], t.value);
    } else {
      AbsentIsUncut(s, c);
      assert s + Tail(c, t) == s;
    }
  }

  // The order, as a function on parsed versions.

  function Sign(a: int, b: int): (c: int)
    ensures -1 <= c <= 1 && (c < 0 <==> a < b) && (c > 0 <==> a > b)
  {
    if a < b then -1 else if a > b then 1 else 0
  }

  function CmpString(a: string, b: string): (c: int)
    ensures -1 <= c <= 1
  {
    if a == "" || b == "" then Sign(|a|, |b|)
    else if a[0] != b[0] then Sign(a[0] as int, b[0] as int)
    else CmpString(a[1..], b[1..])
  }

  /** A numeric identifier: digits without a leading zero, within 64 bits. */
  function NumericIdent(s: string): Option<nat> {
    if s == "" || (|s| > 1 && s[0] == '0') then None else ParseUint(s)
  }

  function CmpField(a: string, b: string): (c: int)
    ensures -1 <= c <= 1
  {
    match (NumericIdent(a), NumericIdent(b))
    case (Some(x), Some(y)) => Sign(x, y)
    case (Some(_), None) => -1
    case (None, Some(_)) => 1
    case (None, None) => CmpString(a, b)
  }

  function CmpFields(a: seq<string>, b: seq<string>): (c: int)
    ensures -1 <= c <= 1
  {
    if a == [] || b == [] then Sign(|a|, |b|)
    else
      var c := CmpField(a[0], b[0]);
      if c != 0 then c else CmpFields(a[1..], b[1..])
  }

  function CmpNums(a: seq<nat>, b: seq<nat>): (c: int)
    requires |a| == |b|
    ensures -1 <= c <= 1
  {
    if a == [] then 0
    else if a[0] != b[0] then Sign(a[0], b[0])
    else CmpNums(a[1..], b[1..])
  }

  /** A release outranks its pre-releases; otherwise identifiers decide. */
  function CmpPre(a: seq<string>, b: seq<string>): (c: int)
    ensures -1 <= c <= 1
  {
    if a == [] || b == [] then Sign(|b|, |a|) else CmpFields(a, b)
  }

  function CmpParsed(a: Parsed, b: Parsed): (c: int)
    requires |a.nums| == |b.nums|
    ensures -1 <= c <= 1
  {
    var c := CmpNums(a.nums, b.nums);
    if c != 0 then c else CmpPre(a.pre, b.pre)
  }

  /** The precedence of two accepted versions. */
  function Cmp(a: string, b: string): (c: int)
    requires ValidVersion(a) && ValidVersion(b)
    ensures -1 <= c <= 1
  {
    CmpParsed(Parse(a), Parse(b))
  }

  // The loops that compute it.

  lemma {:induction false} CmpNumsFrom(a: seq<nat>, b: seq<nat>, i: nat)
    requires |a| == |b| && i <= |a| && a[..i] == b[..i]
    ensures CmpNums(a, b) == CmpNums(a[i..], b[i..])
  {
    if i > 0 {
      assert a[0] == a[..i][0] == b[..i][0] == b[0];
      assert a[1..][..i - 1] == a[..i][1..] == b[..i][1..] == b[1..][..i - 1];
      CmpNumsFrom(a[1..], b[1..], i - 1);
      assert a[1..][i - 1..] == a[i..] && b[1..][i - 1..] == b[i..];
    } else {
      assert a[0..] == a && b[0..] == b;
    }
  }

  ghost predicate TieUpTo(a: seq<string>, b: seq<string>, i: nat)
    requires i <= |a| && i <= |b|
  {
    forall k :: 0 <= k < i ==> CmpField(a[k], b[k]) == 0
  }

  lemma {:induction false} CmpFieldsFrom(a: seq<string>, b: seq<string>, i: nat)
    requires i <= |a| && i <= |b| && TieUpTo(a, b, i)
    ensures CmpFields(a, b) == CmpFields(a[i..], b[i..])
  {
    if i > 0 {
      assert CmpField(a[0], b[0]) == 0;
      CmpFieldsFrom(a[1..], b[1..], i - 1);
      assert a[1..][i - 1..] == a[i..] && b[1..][i - 1..] == b[i..];
    } else {
      assert a[0..] == a && b[0..] == b;
    }
  }

  method CompareParsed(a: Parsed, b: Parsed) returns (c: int)
    requires |a.nums| == |b.nums|
    ensures c == CmpParsed(a, b)
  {
    for i := 0 to |a.nums|
      invariant a.nums[..i] == b.nums[..i]
    {
      if a.nums[i] != b.nums[i] {
        CmpNumsFrom(a.nums, b.nums, i);
        return Sign(a.nums[i], b.nums[i]);
      }
      assert a.nums[..i + 1] == a.nums[..i] + [a.nums[i]] && b.nums[..i + 1] == b.nums[..i] + [b.nums[i]];
    }
    CmpNumsFrom(a.nums, b.nums, |a.nums|);
    if a.pre == [] && b.pre == [] {
      return 0;
    } else if a.pre == [] {
      return 1;
    } else if b.pre == [] {
      return -1;
    }
    var i := 0;
    while i < |a.pre| && i < |b.pre|
      invariant i <= |a.pre| && i <= |b.pre|
      invariant TieUpTo(a.pre, b.pre, i)
    {
      var f := CmpField(a.pre[i], b.pre[i]);
      if f != 0 {
        CmpFieldsFrom(a.pre, b.pre, i);
        return f;
      }
      i := i + 1;
    }
    CmpFieldsFrom(a.pre, b.pre, i);
    return Sign(|a.pre|, |b.pre|);
  }

  /** Orders two versions, refusing anything that is not one. */
  method Compare(a: string, b: string) returns (c: Option<int>)
    ensures c == if ValidVersion(a) && ValidVersion(b) then Some(Cmp(a, b)) else None
  {
    if !ValidVersion(a) || !ValidVersion(b) {
      return None;
    }
    var pa := ParseVersion(a);
    var pb := ParseVersion(b);
    var r := CompareParsed(pa, pb);
    return Some(r);
  }

  // It is a total preorder. Each level is shown to be one in the same two
  // steps: swapping the arguments negates, and ordered pairs chain.

  lemma {:induction false} CmpStringSwap(a: string, b: string)
    ensures CmpString(a, b) == -CmpString(b, a)
  {
    if a != "" && b != "" && a[0] == b[0] {
      CmpStringSwap(a[1..], b[1..]);
    }
  }

  lemma {:induction false} CmpStringChain(a: string, b: string, c: string)
    requires CmpString(a, b) <= 0 && CmpString(b, c) <= 0
    ensures CmpString(a, c) <= 0
    ensures CmpString(a, c) == 0 ==> CmpString(a, b) == 0 && CmpString(b, c) == 0
  {
    if a != "" && b != "" && c != "" && a[0] == b[0] == c[0] {
      CmpStringChain(a[1..], b[1..], c[1..]);
    }
  }

  lemma CmpFieldSwap(a: string, b: string)
    ensures CmpField(a, b) == -CmpField(b, a)
  {
    CmpStringSwap(a, b);
  }

  lemma CmpFieldChain(a: string, b: string, c: string)
    requires CmpField(a, b) <= 0 && CmpField(b, c) <= 0
    ensures CmpField(a, c) <= 0
    ensures CmpField(a, c) == 0 ==> CmpField(a, b) == 0 && CmpField(b, c) == 0
  {
    if NumericIdent(a).None? && NumericIdent(b).None? && NumericIdent(c).None? {
      CmpStringChain(a, b, c);
    }
  }

  lemma {:induction false} CmpFieldsSwap(a: seq<string>, b: seq<string>)
    ensures CmpFields(a, b) == -CmpFields(b, a)
  {
    if a != [] && b != [] {
      CmpFieldSwap(a[0], b[0]);
      CmpFieldsSwap(a[1..], b[1..]);
    }
  }

  lemma {:induction false} CmpFieldsChain(a: seq<string>, b: seq<string>, c: seq<string>)
    requires CmpFields(a, b) <= 0 && CmpFields(b, c) <= 0
    ensures CmpFields(a, c) <= 0
    ensures CmpFields(a, c) == 0 ==> CmpFields(a, b) == 0 && CmpFields(b, c) == 0
  {
    if a != [] && b != [] && c != [] {
      CmpFieldChain(a[0], b[0], c[0]);
      if CmpField(a[0], c[0]) == 0 {
        CmpFieldsChain(a[1..], b[1..], c[1..]);
      }
    }
  }

  lemma {:induction false} CmpNumsSwap(a: seq<nat>, b: seq<nat>)
    requires |a| == |b|
    ensures CmpNums(a, b) == -CmpNums(b, a)
  {
    if a != [] {
      CmpNumsSwap(a[1..], b[1..]);
    }
  }

  lemma {:induction false} CmpNumsChain(a: seq<nat>, b: seq<nat>, c: seq<nat>)
    requires |a| == |b| == |c|
    requires CmpNums(a, b) <= 0 && CmpNums(b, c) <= 0
    ensures CmpNums(a, c) <= 0
    ensures CmpNums(a, c) == 0 ==> CmpNums(a, b) == 0 && CmpNums(b, c) == 0
  {
    if a != [] && a[0] == b[0] == c[0] {
      CmpNumsChain(a[1..], b[1..], c[1..]);
    }
  }

  /** Swapping negates, so any two versions are comparable. */
  lemma CmpSwap(a: string, b: string)
    requires ValidVersion(a) && ValidVersion(b)
    ensures Cmp(a, b) == -Cmp(b, a)
  {
    var x, y := Parse(a), Parse(b);
    CmpNumsSwap(x.nums, y.nums);
    CmpFieldsSwap(x.pre, y.pre);
  }

  /** Order chains, and a chain ties only if every link does. */
  lemma CmpChain(a: string, b: string, c: string)
    requires ValidVersion(a) && ValidVersion(b) && ValidVersion(c)
    requires Cmp(a, b) <= 0 && Cmp(b, c) <= 0
    ensures Cmp(a, c) <= 0
    ensures Cmp(a, c) == 0 <==> Cmp(a, b) == 0 && Cmp(b, c) == 0
  {
    var x, y, z := Parse(a), Parse(b), Parse(c);
    CmpNumsChain(x.nums, y.nums, z.nums);
    if x.pre != [] && y.pre != [] && z.pre != [] && CmpFields(x.pre, y.pre) <= 0 && CmpFields(y.pre, z.pre) <= 0 {
      CmpFieldsChain(x.pre, y.pre, z.pre);
    }
    CmpSwap(a, b);
    CmpSwap(b, c);
    if Cmp(a, b) == 0 && Cmp(b, c) == 0 {
      CmpTieChain(x, y, z);
    }
  }

  lemma CmpTieChain(x: Parsed, y: Parsed, z: Parsed)
    requires |x.nums| == |y.nums| == |z.nums|
    requires CmpParsed(x, y) == 0 && CmpParsed(y, z) == 0
    ensures CmpParsed(x, z) == 0
  {
    CmpNumsSwap(x.nums, y.nums);
    CmpNumsSwap(y.nums, z.nums);
    CmpNumsSwap(x.nums, z.nums);
    CmpNumsChain(x.nums, y.nums, z.nums);
    CmpNumsChain(z.nums, y.nums, x.nums);
    if x.pre != [] {
      CmpFieldsSwap(x.pre, y.pre);
      CmpFieldsSwap(y.pre, z.pre);
      CmpFieldsSwap(x.pre, z.pre);
      CmpFieldsChain(x.pre, y.pre, z.pre);
      CmpFieldsChain(z.pre, y.pre, x.pre);
    }
  }

  /** The order as a value, for what is generic in it. */
  type Comparison = (Version, Version) -> int

  const ORDER: Comparison := (a: Version, b: Version) => Cmp(a, b)

  lemma OrderIsTotalPreorder()
    ensures Ordering.TotalPreorder(ORDER)
  {
    forall a: Version, b: Version, c: Version
      ensures Ordering.Orders(ORDER, a, b, c)
    {
      CmpSwap(a, b);
      if Cmp(a, b) <= 0 && Cmp(b, c) <= 0 {
        CmpChain(a, b, c);
      }
    }
  }

  // Section 11 of SemVer 2.0.0, stated on its own with unbounded numbers.

  predicate IsNumeric(s: string) {
    AllDigits(s) && (|s| > 1 ==> s[0] != '0')
  }

  /** A well-formed identifier (section 9): not empty, and no leading zero if it
      is made of digits. */
  predicate WellFormedIdent(s: string) {
    s != "" && (AllDigits(s) ==> IsNumeric(s))
  }

  function Precedence(a: string, b: string): int {
    if IsNumeric(a) && IsNumeric(b) then Sign(Number(a), Number(b))
    else if IsNumeric(a) then -1
    else if IsNumeric(b) then 1
    else CmpString(a, b)
  }

  function PrecedenceOfLists(a: seq<string>, b: seq<string>): int {
    if a == [] || b == [] then Sign(|a|, |b|)
    else if Precedence(a[0], b[0]) != 0 then Precedence(a[0], b[0])
    else PrecedenceOfLists(a[1..], b[1..])
  }

  function CoreOf(v: string): seq<string> {
    Split(Cut(Cut(v, '+').0, '-').0, '.')
  }

  function PreOf(v: string): seq<string> {
    match Cut(Cut(v, '+').0, '-').1
    case None => []
    case Some(s) => Split(s, '.')
  }

  function SemverPrecedence(a: string, b: string): int
    requires ValidVersion(a) && ValidVersion(b)
  {
    var (x, y) := (CoreOf(a), CoreOf(b));
    if Number(x[0]) != Number(y[0]) then Sign(Number(x[0]), Number(y[0]))
    else if Number(x[1]) != Number(y[1]) then Sign(Number(x[1]), Number(y[1]))
    else if Number(x[2]) != Number(y[2]) then Sign(Number(x[2]), Number(y[2]))
    else if PreOf(a) == [] || PreOf(b) == [] then Sign(|PreOf(b)|, |PreOf(a)|)
    else PrecedenceOfLists(PreOf(a), PreOf(b))
  }

  /** They agree up to i, and there a ends or has the lower character. */
  predicate ComesBefore(a: string, b: string, i: nat) {
    i <= |a| && i < |b| && a[..i] == b[..i] && (i == |a| || a[i] < b[i])
  }

  /** Text is ordered by the first character that differs, and what another text
      begins with comes first. */
  lemma {:induction false} TextOrder(a: string, b: string)
    ensures CmpString(a, b) < 0 <==> exists i: nat :: ComesBefore(a, b, i)
    ensures CmpString(a, b) > 0 <==> exists i: nat :: ComesBefore(b, a, i)
    ensures CmpString(a, b) == 0 <==> a == b
    decreases |a|
  {
    if a == "" || b == "" {
      assert ComesBefore(a, b, 0) <==> |a| < |b|;
      assert ComesBefore(b, a, 0) <==> |b| < |a|;
    } else if a[0] != b[0] {
      assert ComesBefore(a, b, 0) <==> a[0] < b[0];
      assert ComesBefore(b, a, 0) <==> b[0] < a[0];
      assert forall i :: i > 0 && i <= |a| && i <= |b| ==> a[..i][0] != b[..i][0];
    } else {
      TextOrder(a[1..], b[1..]);
      LaterBefore(a, b);
      LaterBefore(b, a);
      assert a == [a[0]] + a[1..] && b == [b[0]] + b[1..];
    }
  }

  lemma LaterBefore(a: string, b: string)
    requires a != "" && b != "" && a[0] == b[0]
    ensures (exists i: nat :: ComesBefore(a, b, i)) <==> exists i: nat :: ComesBefore(a[1..], b[1..], i)
  {
    forall i: nat | ComesBefore(a, b, i)
      ensures i > 0 && ComesBefore(a[1..], b[1..], i - 1)
    {
      assert i > 0;
      assert a[1..][..i - 1] == a[..i][1..] && b[1..][..i - 1] == b[..i][1..];
    }
    forall i: nat | ComesBefore(a[1..], b[1..], i)
      ensures ComesBefore(a, b, i + 1)
    {
      assert a[..i + 1] == [a[0]] + a[1..][..i] && b[..i + 1] == [b[0]] + b[1..][..i];
    }
  }

  /** Any two identifiers: numbers without a leading zero and within 64 bits are
      ordered as numbers, below everything else; everything else as text. */
  lemma FieldExactly(a: string, b: string)
    ensures var x, y := IsNumeric(a) && Number(a) <= 0xFFFF_FFFF_FFFF_FFFF, IsNumeric(b) && Number(b) <= 0xFFFF_FFFF_FFFF_FFFF;
            CmpField(a, b) == (if x && y then Sign(Number(a), Number(b))
                               else if x then -1
                               else if y then 1
                               else CmpString(a, b))
  {
  }

  // Where the order leaves the standard: numbers beyond 64 bits.

  predicate Beyond(s: string) {
    AllDigits(s) && Number(s) > MAX_UINT64
  }

  /** Without leading zeros, numbers order by length and then as text. */
  lemma {:induction false} NumberAsText(a: string, b: string)
    requires Digits(a) && Digits(b) && |a| == |b|
    ensures Sign(Number(a), Number(b)) == CmpString(a, b)
    decreases |a|
  {
    if a != "" {
      var n := |a| - 1;
      NumberAsText(a[..n], b[..n]);
      CmpStringLast(a, b);
    }
  }

  lemma {:induction false} CmpStringLast(a: string, b: string)
    requires |a| == |b| > 0
    ensures var n := |a| - 1;
            CmpString(a, b) == if CmpString(a[..n], b[..n]) != 0 then CmpString(a[..n], b[..n])
                               else Sign(a[n] as int, b[n] as int)
    decreases |a|
  {
    var n := |a| - 1;
    if n > 0 && a[0] == b[0] {
      CmpStringLast(a[1..], b[1..]);
      assert a[..n][1..] == a[1..][..n - 1] && b[..n][1..] == b[1..][..n - 1];
    }
  }

  lemma {:induction false} NumberBelow(a: string)
    requires Digits(a)
    ensures Number(a) < Pow10(|a|)
    decreases |a|
  {
    if a != "" {
      NumberBelow(a[..|a| - 1]);
    }
  }

  lemma {:induction false} NumberAtLeast(a: string)
    requires AllDigits(a) && a[0] != '0'
    ensures Number(a) >= Pow10(|a| - 1)
    decreases |a|
  {
    if |a| > 1 {
      NumberAtLeast(a[..|a| - 1]);
    } else {
      assert a[..0] == "";
    }
  }

  lemma {:induction false} Pow10Grows(m: nat, n: nat)
    requires m <= n
    ensures Pow10(m) <= Pow10(n)
    decreases n
  {
    if m < n {
      Pow10Grows(m, n - 1);
    }
  }

  lemma ShorterIsLess(a: string, b: string)
    requires IsNumeric(a) && IsNumeric(b) && |a| < |b|
    ensures Number(a) < Number(b)
  {
    NumberBelow(a);
    NumberAtLeast(b);
    Pow10Grows(|a|, |b| - 1);
  }

  /** Two identifiers are ordered as text though a number is among them, and text
      gets it wrong: two numbers beyond 64 bits of different length where the
      longer sorts first, or one beside an identifier that sorts below it. */
  predicate TextMisleads(a: string, b: string) {
    || (Beyond(a) && Beyond(b) && |a| != |b| && CmpString(a, b) != Sign(|a|, |b|))
    || (Beyond(a) && !IsNumeric(b) && CmpString(a, b) > 0)
    || (!IsNumeric(a) && Beyond(b) && CmpString(a, b) < 0)
  }

  lemma {:induction false} TieIsEqual(a: string, b: string)
    ensures CmpString(a, b) == 0 <==> a == b
    decreases |a|
  {
    if a != "" && b != "" && a[0] == b[0] {
      TieIsEqual(a[1..], b[1..]);
      assert a == [a[0]] + a[1..] && b == [b[0]] + b[1..];
    }
  }

  /** One pair of identifiers follows the standard exactly when text does not
      mislead. */
  lemma IdentExactly(a: string, b: string)
    requires WellFormedIdent(a) && WellFormedIdent(b)
    ensures CmpField(a, b) == Precedence(a, b) <==> !TextMisleads(a, b)
  {
    TieIsEqual(a, b);
    if IsNumeric(a) && IsNumeric(b) {
      if |a| == |b| {
        NumberAsText(a, b);
      } else if |a| < |b| {
        ShorterIsLess(a, b);
      } else {
        ShorterIsLess(b, a);
      }
    }
  }

  /** It does mislead: every number beyond 64 bits outranks the identifier "-a",
      which the standard puts above all numbers. */
  lemma BeyondOutranksText(a: string)
    requires IsNumeric(a) && Beyond(a)
    ensures CmpField(a, "-a") == 1 && Precedence(a, "-a") == -1
  {
    assert a[0] >= '0' && "-a"[0] == '-';
    assert !AllDigits("-a") by {
      assert !('0' <= "-a"[0]);
    }
  }

  ghost predicate FitsIdents(pre: seq<string>) {
    forall i :: 0 <= i < |pre| ==> WellFormedIdent(pre[i]) && (AllDigits(pre[i]) ==> Number(pre[i]) <= MAX_UINT64)
  }

  /** A version of the standard whose every number fits 64 bits. */
  ghost predicate Fits64(v: string)
    requires ValidVersion(v)
  {
    && (forall i :: 0 <= i < 3 ==> Number(CoreOf(v)[i]) <= MAX_UINT64)
    && FitsIdents(PreOf(v))
  }

  /** Field by field, the identifiers compare as the standard says. */
  ghost predicate IdentsFollow(a: seq<string>, b: seq<string>) {
    && (forall i :: 0 <= i < |a| ==> WellFormedIdent(a[i])) && (forall i :: 0 <= i < |b| ==> WellFormedIdent(b[i]))
    && (forall i :: 0 <= i < |a| && i < |b| ==> !TextMisleads(a[i], b[i]))
  }

  lemma {:induction false} ListsFollowTheStandard(a: seq<string>, b: seq<string>)
    requires IdentsFollow(a, b)
    ensures CmpFields(a, b) == PrecedenceOfLists(a, b)
    decreases |a|
  {
    if a != [] && b != [] {
      assert !TextMisleads(a[0], b[0]);
      IdentExactly(a[0], b[0]);
      ListsFollowTheStandard(a[1..], b[1..]);
    }
  }

  lemma CmpNumsOfThree(a: seq<nat>, b: seq<nat>)
    requires |a| == |b| == 3
    ensures CmpNums(a, b) ==
            if a[0] != b[0] then Sign(a[0], b[0])
            else if a[1] != b[1] then Sign(a[1], b[1])
            else Sign(a[2], b[2])
  {
    var a1, b1 := a[1..], b[1..];
    var a2, b2 := a1[1..], b1[1..];
    assert CmpNums(a2, b2) == Sign(a[2], b[2]);
    assert a[0] == b[0] && a[1] == b[1] ==> CmpNums(a, b) == CmpNums(a2, b2);
  }

  /** A core number is compared right exactly when the two are equal or one of
      them is below the ceiling. */
  predicate CoreFollows(a: string, b: string)
    requires AllDigits(a) && AllDigits(b)
  {
    Number(a) == Number(b) || Number(a) < MAX_UINT64 || Number(b) < MAX_UINT64
  }

  lemma SaturationIsExact(a: string, b: string)
    requires AllDigits(a) && AllDigits(b)
    ensures Sign(Saturating(a), Saturating(b)) == Sign(Number(a), Number(b)) <==> CoreFollows(a, b)
  {
  }

  /** Every pair of fields compares as the standard says. */
  ghost predicate Comparable(a: string, b: string)
    requires ValidVersion(a) && ValidVersion(b)
  {
    var (x, y) := (CoreOf(a), CoreOf(b));
    && CoreFollows(x[0], y[0]) && CoreFollows(x[1], y[1]) && CoreFollows(x[2], y[2])
    && IdentsFollow(PreOf(a), PreOf(b))
  }

  /** Where every pair of fields does, the order is the standard's. */
  lemma FollowsTheStandard(a: string, b: string)
    requires ValidVersion(a) && ValidVersion(b) && Comparable(a, b)
    ensures Cmp(a, b) == SemverPrecedence(a, b)
  {
    var x, y := Parse(a), Parse(b);
    var (c, d) := (CoreOf(a), CoreOf(b));
    CmpNumsOfThree(x.nums, y.nums);
    CoreAgrees(c[0], d[0]);
    CoreAgrees(c[1], d[1]);
    CoreAgrees(c[2], d[2]);
    if PreOf(a) != [] && PreOf(b) != [] {
      ListsFollowTheStandard(PreOf(a), PreOf(b));
    }
  }

  lemma CoreAgrees(a: string, b: string)
    requires AllDigits(a) && AllDigits(b) && CoreFollows(a, b)
    ensures Saturating(a) == Saturating(b) <==> Number(a) == Number(b)
    ensures Sign(Saturating(a), Saturating(b)) == Sign(Number(a), Number(b))
  {
    SaturationIsExact(a, b);
  }

  /** So within 64 bits it always is. */
  lemma WithinSixtyFourBits(a: string, b: string)
    requires ValidVersion(a) && ValidVersion(b) && Fits64(a) && Fits64(b)
    ensures Comparable(a, b) && Cmp(a, b) == SemverPrecedence(a, b)
  {
    var (p, q) := (PreOf(a), PreOf(b));
    forall i | 0 <= i < |p| && i < |q|
      ensures !TextMisleads(p[i], q[i])
    {
      assert WellFormedIdent(p[i]) && WellFormedIdent(q[i]);
    }
    CoreWithin(CoreOf(a), CoreOf(b));
    FollowsTheStandard(a, b);
  }

  lemma CoreWithin(x: seq<string>, y: seq<string>)
    requires |x| == 3 && (forall i :: 0 <= i < 3 ==> AllDigits(x[i]) && Number(x[i]) <= MAX_UINT64)
    requires |y| == 3 && (forall i :: 0 <= i < 3 ==> AllDigits(y[i]) && Number(y[i]) <= MAX_UINT64)
    ensures CoreFollows(x[0], y[0]) && CoreFollows(x[1], y[1]) && CoreFollows(x[2], y[2])
  {
  }
}
