/** Downloads that continue after a dropped connection, without ever joining
    pieces that do not belong together. */
module Resume {
  import opened Bytes
  import opened Decimal

  // Content-Range, section 14.4 of RFC 9110.

  datatype Range = Range(first: nat, last: nat, total: Option<nat>)

  function Find(s: string, c: char): (k: nat)
    ensures k <= |s| && (k < |s| ==> s[k] == c)
    ensures forall i :: 0 <= i < k ==> s[i] != c
  {
    if s == "" || s[0] == c then 0 else 1 + Find(s[1..], c)
  }

  const MAX_DIGITS := 18

  function ParseDecimal(s: string): Option<nat> {
    if s == "" || |s| > MAX_DIGITS || !Digits(s) then None else Some(Number(s))
  }

  function ParseBounds(bounds: string, size: string): Option<Range> {
    var d := Find(bounds, '-');
    if d == |bounds| then None
    else
      var first, last := ParseDecimal(bounds[..d]), ParseDecimal(bounds[d + 1..]);
      if first.None? || last.None? || last.value < first.value then None
      else if size == "*" then Some(Range(first.value, last.value, None))
      else
        var total := ParseDecimal(size);
        if total.None? || last.value >= total.value then None
        else Some(Range(first.value, last.value, total))
  }

  /** The one accepted form of the header: a byte range and a size, where the size
      may be an asterisk. */
  function ParseContentRange(header: string): Option<Range> {
    if !("bytes " <= header) then None
    else
      var spec := header[6..];
      var slash := Find(spec, '/');
      if slash == |spec| then None else ParseBounds(spec[..slash], spec[slash + 1..])
  }

  function ShowRange(r: Range): string {
    "bytes " + (Show(r.first) + "-" + Show(r.last)) + "/" + ShowSize(r)
  }

  function ShowSize(r: Range): string {
    if r.total.Some? then Show(r.total.value) else "*"
  }

  /** A range that makes sense and whose numbers are within eighteen digits. */
  predicate Sensible(r: Range) {
    && r.first <= r.last < Pow10(MAX_DIGITS)
    && (r.total.Some? ==> r.last < r.total.value < Pow10(MAX_DIGITS))
  }

  lemma FindIn(s: string, c: char, t: string)
    requires c !in s
    ensures Find(s + [c] + t, c) == |s|
  {
    var all := s + [c] + t;
    var k := Find(all, c);
    assert all[|s|] == c;
    forall i | 0 <= i < |s|
      ensures all[i] != c
    {
      assert all[i] == s[i] && s[i] in s;
    }
  }

  lemma DecimalRoundTrip(n: nat)
    requires n < Pow10(MAX_DIGITS)
    ensures ParseDecimal(Show(n)) == Some(n)
  {
    ShowNumber(n);
    ShowLength(n, MAX_DIGITS);
  }

  lemma NotDigits(s: string)
    requires Digits(s)
    ensures '-' !in s && '/' !in s && s != "*"
  {
    assert s != "" ==> s[0] != "*"[0];
  }

  lemma BoundsRoundTrip(r: Range)
    requires Sensible(r)
    ensures ParseBounds(Show(r.first) + "-" + Show(r.last), ShowSize(r)) == Some(r)
  {
    var a, b := Show(r.first), Show(r.last);
    var bounds := a + "-" + b;
    DecimalRoundTrip(r.first);
    DecimalRoundTrip(r.last);
    NotDigits(a);
    FindIn(a, '-', b);
    assert bounds[..|a|] == a && bounds[|a| + 1..] == b;
    if r.total.Some? {
      DecimalRoundTrip(r.total.value);
      NotDigits(ShowSize(r));
    }
  }

  /** What a server that means a range says about it is understood as that
      range. */
  lemma RangeRoundTrip(r: Range)
    requires Sensible(r)
    ensures ParseContentRange(ShowRange(r)) == Some(r)
  {
    var bounds, size := Show(r.first) + "-" + Show(r.last), ShowSize(r);
    BoundsRoundTrip(r);
    NotDigits(Show(r.first));
    NotDigits(Show(r.last));
    FindIn(bounds, '/', size);
    Cutting(bounds, size);
  }

  lemma Cutting(bounds: string, size: string)
    ensures var header := "bytes " + bounds + "/" + size;
            var spec := bounds + "/" + size;
            && "bytes " <= header && header[6..] == spec
            && spec[..|bounds|] == bounds && spec[|bounds| + 1..] == size
  {
  }

  /** A header is understood if and only if it is spelled so: three numbers, or two
      and an asterisk, of at most eighteen digits each, that make sense. */
  ghost predicate Spells(header: string, r: Range, a: string, b: string, c: string) {
    && header == "bytes " + (a + "-" + b) + "/" + c
    && Short(a) && Short(b) && r.first == Number(a) <= r.last == Number(b)
    && (r.total.None? <==> c == "*") && (r.total.Some? ==> Short(c) && r.last < Number(c) == r.total.value)
  }

  predicate Short(s: string) {
    0 < |s| <= 18 && Digits(s)
  }

  lemma RangeExactly(header: string, r: Range)
    ensures ParseContentRange(header) == Some(r) <==> exists a, b, c :: Spells(header, r, a, b, c)
  {
    if ParseContentRange(header) == Some(r) {
      var a, b, c := Spelled(header, r);
    }
    forall a, b, c | Spells(header, r, a, b, c)
      ensures ParseContentRange(header) == Some(r)
    {
      Understood(header, r, a, b, c);
    }
  }

  lemma Spelled(header: string, r: Range) returns (a: string, b: string, c: string)
    requires ParseContentRange(header) == Some(r)
    ensures Spells(header, r, a, b, c)
  {
    var bounds;
    bounds, c := HeaderSpelled(header);
    var dash := Find(bounds, '-');
    a, b := bounds[..dash], bounds[dash + 1..];
    CutAt(bounds, dash);
    BoundsSpelled(a, b, c, bounds, r);
  }

  lemma HeaderSpelled(header: string) returns (bounds: string, c: string)
    requires ParseContentRange(header).Some?
    ensures header == "bytes " + bounds + "/" + c && ParseBounds(bounds, c) == ParseContentRange(header)
  {
    var spec := header[6..];
    var slash := Find(spec, '/');
    bounds, c := spec[..slash], spec[slash + 1..];
    CutAt(spec, slash);
    assert header[..6] == "bytes ";
    assert header == header[..6] + spec;
    Associates("bytes ", bounds, "/", c);
  }

  lemma CutAt(s: string, k: nat)
    requires k < |s|
    ensures s == s[..k] + [s[k]] + s[k + 1..]
  {
  }

  lemma Associates(a: string, b: string, c: string, d: string)
    ensures a + (b + c + d) == a + b + c + d
  {
  }

  lemma BoundsSpelled(a: string, b: string, c: string, bounds: string, r: Range)
    requires var d := Find(bounds, '-'); d < |bounds| && a == bounds[..d] && b == bounds[d + 1..]
    requires ParseBounds(bounds, c) == Some(r)
    ensures Short(a) && Short(b) && r.first == Number(a) <= r.last == Number(b)
    ensures (r.total.None? <==> c == "*") && (r.total.Some? ==> Short(c) && r.last < Number(c) == r.total.value)
  {
    if c != "*" {
      assert ParseDecimal(c) == r.total;
    }
  }

  lemma Understood(header: string, r: Range, a: string, b: string, c: string)
    requires Spells(header, r, a, b, c)
    ensures ParseContentRange(header) == Some(r)
  {
    var bounds := a + "-" + b;
    NotDigits(a);
    NotDigits(b);
    FindIn(bounds, '/', c);
    FindIn(a, '-', b);
    Cutting(bounds, c);
    assert bounds[..|a|] == a && bounds[|a| + 1..] == b;
    if r.total.Some? {
      NotDigits(c);
    }
  }

  // Responses.

  /** What one request brings: no response at all, or a status, the headers that
      matter, the bytes that arrive, and whether the connection then breaks. */
  datatype Response =
    | Nothing(permanent: bool)
    | Response(status: int, length: Option<nat>, ranges: seq<string>, etag: string, body: seq<Byte>, breaks: bool)

  /** The bytes held so far, and what the responses they came from have stated. */
  datatype Partial = Partial(body: seq<Byte>, total: Option<nat>, etag: string)

  const FRESH := Partial([], None, "")

  datatype Verdict = Again | Failed | Done

  datatype Step = Step(held: Partial, verdict: Verdict)

  /** A tag in quotes is strong; one that is marked weak, or is not a tag, counts
      for none. */
  function StrongTag(tag: string): (r: string)
    ensures r != "" ==> r == tag && r[0] == '\"' && r[|r| - 1] == '\"'
    ensures r == "" ==> |tag| < 2 || tag[0] != '\"' || tag[|tag| - 1] != '\"'
  {
    if |tag| < 2 || tag[0] != '\"' || tag[|tag| - 1] != '\"' then "" else tag
  }

  /** A continuation is believed only if it starts exactly where the held bytes
      end and agrees with itself and with everything stated before. */
  function CheckPartial(res: Response, p: Partial): Option<Range>
    requires res.Response?
  {
    if |res.ranges| != 1 then None
    else
      var r := ParseContentRange(res.ranges[0]);
      if r.None? || r.value.first != |p.body| then None
      else if res.length.Some? && res.length.value != r.value.last - r.value.first + 1 then None
      else if r.value.total.Some? && p.total.Some? && r.value.total != p.total then None
      else if p.etag != "" && StrongTag(res.etag) != "" && StrongTag(res.etag) != p.etag then None
      else r
  }

  function Min(a: int, b: int): int {
    if a < b then a else b
  }

  /** Reads the body, one byte past the tighter bound at most, and judges it. */
  function Receive(p: Partial, want: Option<nat>, res: Response, maxLength: nat): Step
    requires res.Response?
  {
    var offset := |p.body|;
    if (p.total.Some? && p.total.value > maxLength) || (want.Some? && offset + want.value > maxLength) then
      Step(p, Failed)
    else
      var room := maxLength - offset + 1;
      var limit := if want.Some? then Min(room, want.value + 1) else room;
      var n := if limit < 0 then 0 else Min(limit, |res.body|);
      if want.Some? && n > want.value then Step(p, Failed)
      else
        var held := p.(body := p.body + res.body[..n]);
        if |held.body| > maxLength then Step(held, Failed)
        else if || (res.breaks && |res.body| < limit)
                || (want.Some? && n < want.value)
                || (held.total.Some? && |held.body| < held.total.value) then
          Step(held, if n == 0 then Failed else Again)
        else Step(held, Done)
  }

  /** One request and what comes of it. */
  function Answer(p: Partial, res: Response, maxLength: nat): Step {
    if res.Nothing? then Step(p, if res.permanent then Failed else Again)
    else if res.status == 200 then
      Receive(Partial([], res.length, StrongTag(res.etag)), res.length, res, maxLength)
    else if p.body != [] && res.status == 206 then
      var r := CheckPartial(res, p);
      if r.None? then Step(p, Failed)
      else
        Receive(if r.value.total.Some? then p.(total := r.value.total) else p,
                Some(r.value.last - r.value.first + 1), res, maxLength)
    else if p.body != [] && res.status == 416 then Step(FRESH, Again)
    else Step(p, Failed)
  }

  // What one response comes to, in its own fields.

  /** The body is all that was promised: the connection held, and as many bytes
      came as the response states and as are missing of the stated whole. */
  predicate Complete(res: Response, offset: nat, want: Option<nat>, total: Option<nat>)
    requires res.Response?
  {
    && !res.breaks && (want.Some? ==> |res.body| == want.value)
    && (total.Some? ==> offset + |res.body| >= total.value)
  }

  /** Done with all of a body, another request behind part of one, and failed
      behind none, behind more than was stated, or than may be kept. */
  predicate Judged(res: Response, offset: nat, want: Option<nat>, total: Option<nat>, maxLength: nat, v: Verdict)
    requires res.Response?
  {
    var stated := (total.Some? ==> total.value <= maxLength) && (want.Some? ==> offset + want.value <= maxLength);
    var within := if want.Some? then |res.body| <= want.value else |res.body| <= maxLength;
    && (v == Done <==> stated && within && Complete(res, offset, want, total))
    && (v == Again <==> stated && within && !Complete(res, offset, want, total) && res.body != [])
  }

  lemma ReceiveExactly(p: Partial, want: Option<nat>, res: Response, maxLength: nat)
    requires res.Response? && (want.None? ==> p.body == [])
    ensures var s := Receive(p, want, res, maxLength);
            && Judged(res, |p.body|, want, p.total, maxLength, s.verdict)
            && (s.verdict != Failed ==> s.held == p.(body := p.body + res.body))
  {
    assert res.body[..|res.body|] == res.body;
  }

  /** A continuation: one range, which starts where the held bytes end and agrees
      with the length of the body, with the total known and with the tag known. */
  ghost predicate Continues(res: Response, p: Partial, range: Range)
    requires res.Response?
  {
    && |res.ranges| == 1 && (exists a, b, c :: Spells(res.ranges[0], range, a, b, c))
    && range.first == |p.body| && (res.length.Some? ==> res.length.value == range.last - range.first + 1)
    && (range.total.Some? && p.total.Some? ==> range.total == p.total)
    && (p.etag != "" ==> StrongTag(res.etag) in {"", p.etag})
  }

  /** Anything else an answer may be. */
  ghost predicate Unusable(res: Response, p: Partial)
    requires res.Response?
  {
    && res.status != 200
    && (p.body == [] || (res.status != 416 && (res.status != 206 || forall range :: !Continues(res, p, range))))
  }

  /** What a request comes to, whatever it is answered with. No answer leaves what is
      held, for another request unless it is final; a complete response starts
      anew, a continuation goes on, a range that is no longer there means from the
      start, and anything else is final. */
  lemma AnswerExactly(p: Partial, res: Response, maxLength: nat)
    ensures var s := Answer(p, res, maxLength);
            match res
            case Nothing(permanent) => s == Step(p, if permanent then Failed else Again)
            case Response(status, length, _, etag, body, _) =>
              && (status == 200 ==>
                    && Judged(res, 0, length, length, maxLength, s.verdict)
                    && (s.verdict != Failed ==> s.held == Partial(body, length, StrongTag(etag))))
              && (status == 206 && p.body != [] ==>
                    forall range :: Continues(res, p, range) ==>
                      var total := if range.total.Some? then range.total else p.total;
                      && Judged(res, |p.body|, Some(range.last - range.first + 1), total, maxLength, s.verdict)
                      && (s.verdict != Failed ==> s.held == Partial(p.body + body, total, p.etag)))
              && (status == 416 && p.body != [] ==> s == Step(FRESH, Again))
              && (Unusable(res, p) ==> s.verdict == Failed)
  {
    if res.Nothing? {
    } else if res.status == 200 {
      ReceiveExactly(Partial([], res.length, StrongTag(res.etag)), res.length, res, maxLength);
      assert [] + res.body == res.body;
    } else if p.body != [] && res.status == 206 {
      ContinuesExactly(res, p);
      var r := CheckPartial(res, p);
      if r.Some? {
        var q := if r.value.total.Some? then p.(total := r.value.total) else p;
        ReceiveExactly(q, Some(r.value.last - r.value.first + 1), res, maxLength);
      }
    }
  }

  lemma ContinuesExactly(res: Response, p: Partial)
    requires res.Response?
    ensures forall range :: CheckPartial(res, p) == Some(range) <==> Continues(res, p, range)
  {
    if |res.ranges| == 1 {
      forall range
        ensures CheckPartial(res, p) == Some(range) <==> Continues(res, p, range)
      {
        RangeExactly(res.ranges[0], range);
      }
    }
  }

  // Slices of one file.

  /** The response is a slice of the file R at the range it states, cut off
      anywhere. */
  ghost predicate SliceOf(res: Response, R: seq<Byte>) {
    res.Response? ==>
      && (res.status == 200 ==> res.body <= R && (res.length.Some? ==> res.length.value == |R|))
      && (res.status == 206 ==>
            forall i :: 0 <= i < |res.ranges| ==>
              var r := ParseContentRange(res.ranges[i]);
              r.Some? ==> && r.value.first <= r.value.last < |R|
                          && res.body <= R[r.value.first..r.value.last + 1]
                          && (r.value.total.Some? ==> r.value.total.value == |R|))
  }

  predicate StatesTotal(res: Response) {
    && res.Response?
    && (|| (res.status == 200 && res.length.Some?)
        || (res.status == 206 && |res.ranges| == 1 && ParseContentRange(res.ranges[0]).Some?
            && ParseContentRange(res.ranges[0]).value.total.Some?))
  }

  /** What is held is the beginning of R, and its length, if known, is R's. */
  ghost predicate Holds(p: Partial, R: seq<Byte>) {
    p.body <= R && (p.total.Some? ==> p.total.value == |R|)
  }

  lemma JoinsPrefix(a: seq<Byte>, b: seq<Byte>, R: seq<Byte>, to: nat, n: nat)
    requires a <= R && |a| <= to <= |R| && b <= R[|a|..to] && n <= |b|
    ensures a + b[..n] <= R
  {
    assert b[..n] == R[|a|..|a| + n];
    assert a + b[..n] == R[..|a| + n];
  }

  lemma ReceiveHolds(p: Partial, want: Option<nat>, res: Response, maxLength: nat, R: seq<Byte>, to: nat)
    requires res.Response? && Holds(p, R) && |p.body| <= to <= |R| && res.body <= R[|p.body|..to]
    ensures Holds(Receive(p, want, res, maxLength).held, R)
    ensures Receive(p, want, res, maxLength).held.total == p.total
  {
    var room := maxLength - |p.body| + 1;
    var limit := if want.Some? then Min(room, want.value + 1) else room;
    var n := if limit < 0 then 0 else Min(limit, |res.body|);
    JoinsPrefix(p.body, res.body, R, to, n);
  }

  /** Whatever a slice of R is joined to is a beginning of R, if it was one, or if
      the response is the whole file anew. */
  lemma AnswerHolds(p: Partial, res: Response, maxLength: nat, R: seq<Byte>)
    requires SliceOf(res, R) && (Holds(p, R) || (res.Response? && res.status == 200))
    ensures Holds(Answer(p, res, maxLength).held, R)
  {
    if res.Response? && res.status == 200 {
      assert R[0..|R|] == R;
      ReceiveHolds(Partial([], res.length, StrongTag(res.etag)), res.length, res, maxLength, R, |R|);
    } else if res.Response? && p.body != [] && res.status == 206 && CheckPartial(res, p).Some? {
      var r := CheckPartial(res, p).value;
      var q := if r.total.Some? then p.(total := r.total) else p;
      ReceiveHolds(q, Some(r.last - r.first + 1), res, maxLength, R, r.last + 1);
    }
  }

  /** A length that was stated is not forgotten, short of starting over. */
  ghost predicate Knows(p: Partial, R: seq<Byte>, stated: bool) {
    Holds(p, R) && (stated ==> p.total == Some(|R|) || p.body == [])
  }

  predicate Whole(res: Response) {
    res.Response? && res.status == 200
  }

  lemma AnswerKnows(p: Partial, res: Response, maxLength: nat, R: seq<Byte>, stated: bool)
    requires SliceOf(res, R) && (if Whole(res) then !stated else Knows(p, R, stated))
    ensures var s := Answer(p, res, maxLength);
            && (s.verdict == Again ==> Knows(s.held, R, stated || StatesTotal(res)))
            && (s.verdict == Done ==> s.held.body <= R && (stated || StatesTotal(res) ==> s.held.body == R))
  {
    AnswerHolds(p, res, maxLength, R);
    if res.Response? && p.body != [] && res.status == 206 && CheckPartial(res, p).Some? {
      var r := CheckPartial(res, p).value;
      var q := if r.total.Some? then p.(total := r.total) else p;
      ReceiveHolds(q, Some(r.last - r.first + 1), res, maxLength, R, r.last + 1);
    } else if res.Response? && res.status == 200 {
      assert R[0..|R|] == R;
      ReceiveHolds(Partial([], res.length, StrongTag(res.etag)), res.length, res, maxLength, R, |R|);
    }
  }

  // A whole download.

  /** The states a download goes through, one request after another, as long as
      each asks for another. */
  function Held(rs: seq<Response>, maxLength: nat): Step
  {
    if rs == [] then Step(FRESH, Again)
    else
      var before := Held(rs[..|rs| - 1], maxLength);
      if before.verdict != Again then before else Answer(before.held, rs[|rs| - 1], maxLength)
  }

  lemma HeldNext(rs: seq<Response>, res: Response, maxLength: nat)
    requires Held(rs, maxLength).verdict == Again
    ensures Held(rs + [res], maxLength) == Answer(Held(rs, maxLength).held, res, maxLength)
  {
    assert (rs + [res])[..|rs|] == rs;
  }

  ghost predicate SlicesFrom(rs: seq<Response>, k: nat, R: seq<Byte>) {
    && k < |rs| && Whole(rs[k])
    && (forall i :: k < i < |rs| ==> !Whole(rs[i]))
    && (forall i :: k <= i < |rs| ==> SliceOf(rs[i], R))
  }

  predicate StatedFrom(rs: seq<Response>, k: nat) {
    exists i :: k <= i < |rs| && StatesTotal(rs[i])
  }

  lemma StatedNext(rs: seq<Response>, k: nat)
    requires k < |rs|
    ensures StatedFrom(rs, k) <==> StatedFrom(rs[..|rs| - 1], k) || StatesTotal(rs[|rs| - 1])
  {
    var front := rs[..|rs| - 1];
    forall i | 0 <= i < |front|
      ensures front[i] == rs[i]
    {
    }
    if StatedFrom(front, k) {
      var i :| k <= i < |front| && StatesTotal(front[i]);
      assert StatesTotal(rs[i]);
    }
    if StatedFrom(rs, k) {
      var i :| k <= i < |rs| && StatesTotal(rs[i]);
      assert i < |front| ==> StatesTotal(front[i]);
    }
  }

  ghost predicate OneFile(s: Step, R: seq<Byte>, stated: bool) {
    && (s.verdict == Again ==> Knows(s.held, R, stated))
    && (s.verdict == Done ==> s.held.body <= R && (stated ==> s.held.body == R))
  }

  lemma {:induction false} HeldKnows(rs: seq<Response>, k: nat, R: seq<Byte>, maxLength: nat)
    requires SlicesFrom(rs, k, R) && Held(rs[..|rs| - 1], maxLength).verdict == Again
    ensures OneFile(Held(rs, maxLength), R, StatedFrom(rs, k))
    decreases |rs|
  {
    var n := |rs| - 1;
    var front, res := rs[..n], rs[n];
    StatedNext(rs, k);
    if k < n {
      assert SlicesFrom(front, k, R);
      AgainBefore(front, maxLength);
      HeldKnows(front, k, R, maxLength);
    }
    AnswerKnows(Held(front, maxLength).held, res, maxLength, R, k < n && StatedFrom(front, k));
  }

  lemma AgainBefore(rs: seq<Response>, maxLength: nat)
    requires rs != [] && Held(rs, maxLength).verdict == Again
    ensures Held(rs[..|rs| - 1], maxLength).verdict == Again
  {
  }

  /** Resume never splices wrongly: when every response since the last complete
      one is a slice of the same file, what is held is a beginning of it; and if
      any of them stated the length, a download that succeeds is exactly it. */
  lemma ResumesOneFile(rs: seq<Response>, k: nat, R: seq<Byte>, maxLength: nat)
    requires SlicesFrom(rs, k, R) && Held(rs[..|rs| - 1], maxLength).verdict == Again
    ensures var s := Held(rs, maxLength);
            && (s.verdict != Failed ==> s.held.body <= R)
            && (s.verdict == Done && StatedFrom(rs, k) ==> s.held.body == R)
  {
    HeldKnows(rs, k, R, maxLength);
  }

  lemma {:induction false} NeverTooLong(rs: seq<Response>, maxLength: nat)
    ensures Held(rs, maxLength).verdict != Failed ==> |Held(rs, maxLength).held.body| <= maxLength
    decreases |rs|
  {
    if rs != [] {
      NeverTooLong(rs[..|rs| - 1], maxLength);
    }
  }

  /** A success follows a complete response: there is something it resumes. */
  lemma {:induction false} SomethingWasWhole(rs: seq<Response>, maxLength: nat)
    requires Held(rs, maxLength).verdict != Failed && Held(rs, maxLength).held.body != []
    ensures exists k :: 0 <= k < |rs| && Whole(rs[k])
    decreases |rs|
  {
    var n := |rs| - 1;
    if rs != [] && !Whole(rs[n]) {
      SomethingWasWhole(rs[..n], maxLength);
      var k :| 0 <= k < n && Whole(rs[..n][k]);
      assert Whole(rs[k]);
    }
  }

  // A server that has the file.

  /** The connection broke, or there was nothing left to send. */
  predicate Interrupted(res: Response) {
    res.Response? ==> res.breaks || res.status == 416
  }

  /** An answer a server that has R may give to a request that has `offset` bytes:
      the whole, or the rest of it if there is a rest, or that there is none; cut
      off after some of it. Lengths and totals may be left out, and its tag, if it
      gives a strong one, is always the same. */
  ghost predicate Serves(res: Response, offset: nat, R: seq<Byte>, tag: string)
    requires offset <= |R|
  {
    && res.Response? && StrongTag(res.etag) in {"", tag}
    && match res.status
       case 200 => (res.length.Some? ==> res.length.value == |R|) && Cuts(res, R)
       case 206 =>
         && offset < |R| && Cuts(res, R[offset..])
         && (res.length.Some? ==> res.length.value == |R| - offset)
         && (res.ranges == [ShowRange(Range(offset, |R| - 1, None))]
             || res.ranges == [ShowRange(Range(offset, |R| - 1, Some(|R|)))])
       case 416 => offset == |R| > 0
       case _ => false
  }

  /** All of it, or some of it and a break. */
  predicate Cuts(res: Response, all: seq<Byte>)
    requires res.Response?
  {
    if res.breaks then [] < res.body <= all else res.body == all
  }

  /** What has come so far of R. */
  ghost predicate Underway(p: Partial, R: seq<Byte>, tag: string) {
    Holds(p, R) && p.etag in {"", tag}
  }

  lemma ServedAnswer(p: Partial, res: Response, maxLength: nat, R: seq<Byte>, tag: string)
    requires Underway(p, R, tag) && Serves(res, |p.body|, R, tag) && |R| <= maxLength && |R| < Pow10(MAX_DIGITS)
    requires res.status != 206 || p.body != []
    ensures var s := Answer(p, res, maxLength);
            if Interrupted(res) then s.verdict == Again && Underway(s.held, R, tag)
            else s.verdict == Done && s.held.body == R
  {
    AnswerExactly(p, res, maxLength);
    if res.status == 206 {
      ServedRest(p, res, maxLength, R, tag);
    }
  }

  lemma ServedRest(p: Partial, res: Response, maxLength: nat, R: seq<Byte>, tag: string)
    requires Underway(p, R, tag) && Serves(res, |p.body|, R, tag) && |R| <= maxLength && |R| < Pow10(MAX_DIGITS)
    requires res.status == 206 && p.body != []
    ensures var s := Answer(p, res, maxLength);
            if res.breaks then s.verdict == Again && Underway(s.held, R, tag)
            else s.verdict == Done && s.held.body == R
  {
    var range := RestRange(p, res, R, tag);
    var total := ContinuedAnswer(p, res, range, maxLength);
    GoesOn(p.body, res.body, R);
  }

  lemma ContinuedAnswer(p: Partial, res: Response, range: Range, maxLength: nat) returns (total: Option<nat>)
    requires res.Response? && res.status == 206 && p.body != [] && Continues(res, p, range)
    ensures total == if range.total.Some? then range.total else p.total
    ensures var s := Answer(p, res, maxLength);
            && Judged(res, |p.body|, Some(range.last - range.first + 1), total, maxLength, s.verdict)
            && (s.verdict != Failed ==> s.held == Partial(p.body + res.body, total, p.etag))
  {
    AnswerExactly(p, res, maxLength);
    total := if range.total.Some? then range.total else p.total;
  }

  lemma GoesOn(a: seq<Byte>, b: seq<Byte>, R: seq<Byte>)
    requires a <= R && b <= R[|a|..]
    ensures a + b <= R && (b == R[|a|..] ==> a + b == R)
  {
    assert a + R[|a|..] == R;
    JoinsPrefix(a, b, R, |R|, |b|) by {
      assert R[|a|..|R|] == R[|a|..];
    }
    assert b[..|b|] == b;
  }

  lemma RestRange(p: Partial, res: Response, R: seq<Byte>, tag: string) returns (range: Range)
    requires Underway(p, R, tag) && Serves(res, |p.body|, R, tag) && |R| < Pow10(MAX_DIGITS)
    requires res.status == 206
    ensures Continues(res, p, range) && range.last == |R| - 1 && (range.total.Some? ==> range.total.value == |R|)
  {
    var total := if res.ranges == [ShowRange(Range(|p.body|, |R| - 1, None))] then None else Some(|R|);
    range := Range(|p.body|, |R| - 1, total);
    RangeRoundTrip(range);
    RangeExactly(res.ranges[0], range);
  }

  /** The responses are what the server says to what is asked of it each time. */
  ghost predicate Asked(server: (nat, nat, string) -> Response, rs: seq<Response>, maxLength: nat) {
    forall i: nat :: i < |rs| ==> AskedAt(server, rs, i, maxLength)
  }

  ghost predicate AskedAt(server: (nat, nat, string) -> Response, rs: seq<Response>, i: nat, maxLength: nat)
    requires i < |rs|
  {
    var p := Held(rs[..i], maxLength).held;
    rs[i] == server(i, |p.body|, p.etag)
  }

  /** Whatever it is asked, and whenever, the server has R. Nothing held means that
      no range is asked for. */
  ghost predicate ServesFile(server: (nat, nat, string) -> Response, R: seq<Byte>, tag: string) {
    forall i: nat, offset: nat, etag: string :: offset <= |R| ==>
      && Serves(server(i, offset, etag), offset, R, tag)
      && (offset == 0 ==> server(i, offset, etag).status != 206)
  }

  lemma {:induction false} ServedSoFar(server: (nat, nat, string) -> Response, rs: seq<Response>, maxLength: nat,
                                       R: seq<Byte>, tag: string)
    requires Asked(server, rs, maxLength) && ServesFile(server, R, tag) && |R| <= maxLength && |R| < Pow10(MAX_DIGITS)
    requires rs != [] ==> Held(rs[..|rs| - 1], maxLength).verdict == Again
    ensures var s := Held(rs, maxLength);
            if forall i :: 0 <= i < |rs| ==> Interrupted(rs[i]) then s.verdict == Again && Underway(s.held, R, tag)
            else s.verdict == Done && s.held.body == R
    decreases |rs|
  {
    if rs != [] {
      var n := |rs| - 1;
      var front := rs[..n];
      assert Asked(server, front, maxLength) by {
        forall i: nat | i < n
          ensures AskedAt(server, front, i, maxLength)
        {
          assert AskedAt(server, rs, i, maxLength) && front[..i] == rs[..i];
        }
      }
      if front != [] {
        AgainBefore(front, maxLength);
      }
      ServedSoFar(server, front, maxLength, R, tag);
      assert forall i :: 0 <= i < n ==> front[i] == rs[i];
      assert AskedAt(server, rs, n, maxLength);
      var p := Held(front, maxLength).held;
      assert Underway(p, R, tag) && Serves(rs[n], |p.body|, R, tag);
      ServedAnswer(p, rs[n], maxLength, R, tag);
    }
  }

  lemma ServedFiles(server: (nat, nat, string) -> Response, rs: seq<Response>, maxLength: nat)
    requires Asked(server, rs, maxLength) && rs != [] && Held(rs[..|rs| - 1], maxLength).verdict == Again
    ensures forall R, tag :: ServesFile(server, R, tag) && |R| <= maxLength && |R| < Pow10(MAX_DIGITS) ==>
              var s := Held(rs, maxLength);
              if forall i :: 0 <= i < |rs| ==> Interrupted(rs[i]) then s.verdict == Again
              else s.verdict == Done && s.held.body == R
  {
    forall R, tag | ServesFile(server, R, tag) && |R| <= maxLength && |R| < Pow10(MAX_DIGITS)
      ensures var s := Held(rs, maxLength);
              if forall i :: 0 <= i < |rs| ==> Interrupted(rs[i]) then s.verdict == Again
              else s.verdict == Done && s.held.body == R
    {
      ServedSoFar(server, rs, maxLength, R, tag);
    }
  }

  lemma AskedNext(server: (nat, nat, string) -> Response, rs: seq<Response>, res: Response, maxLength: nat)
    requires Asked(server, rs, maxLength)
    requires var p := Held(rs, maxLength).held; res == server(|rs|, |p.body|, p.etag)
    ensures Asked(server, rs + [res], maxLength)
  {
    var all := rs + [res];
    forall i: nat | i < |all|
      ensures AskedAt(server, all, i, maxLength)
    {
      if i < |rs| {
        assert AskedAt(server, rs, i, maxLength);
        assert all[..i] == rs[..i];
      } else {
        assert all[..i] == rs;
      }
    }
  }

  /** The download in progress, and the server it asks: which request this is,
      the offset asked for, and the validator sent along. */
  class Download {
    var held: Partial
    const server: (nat, nat, string) -> Response

    constructor (server: (nat, nat, string) -> Response)
      ensures held == FRESH && this.server == server
    {
      this.server := server;
      this.held := FRESH;
    }

    /** Issues one request, continuing after what is held. */
    method Request(i: nat, maxLength: nat) returns (verdict: Verdict, res: Response)
      modifies this`held
      ensures res == server(i, |old(held).body|, old(held).etag)
      ensures Step(held, verdict) == Answer(old(held), res, maxLength)
    {
      res := server(i, |held.body|, held.etag);
      if res.Nothing? {
        return if res.permanent then Failed else Again, res;
      }
      var want: Option<nat>;
      if res.status == 200 {
        held := Partial([], res.length, StrongTag(res.etag));
        want := res.length;
      } else if held.body != [] && res.status == 206 {
        var r := CheckPartial(res, held);
        if r.None? {
          return Failed, res;
        }
        if r.value.total.Some? {
          held := held.(total := r.value.total);
        }
        want := Some(r.value.last - r.value.first + 1);
      } else if held.body != [] && res.status == 416 {
        held := FRESH;
        return Again, res;
      } else {
        return Failed, res;
      }
      var s := Receive(held, want, res, maxLength);
      held := s.held;
      return s.verdict, res;
    }

    /** At most `attempts` further requests after the first. What it returns is
        what those responses amount to, and never longer than asked for. */
    method DownloadFile(maxLength: int, attempts: nat) returns (file: Option<seq<Byte>>, responses: seq<Response>)
      requires held == FRESH
      modifies this`held
      ensures maxLength < 0 ==> file.None? && responses == []
      ensures |responses| <= attempts + 1
      ensures maxLength >= 0 ==>
                (&& (file.Some? <==> Held(responses, maxLength).verdict == Done)
                 && (file.Some? ==> file.value == Held(responses, maxLength).held.body && |file.value| <= maxLength)
                 && (file.Some? ==> Held(responses[..|responses| - 1], maxLength).verdict == Again))
      ensures maxLength >= 0 ==> Asked(server, responses, maxLength)
      ensures forall R, tag :: ServesFile(server, R, tag) && |R| <= maxLength && |R| < Pow10(MAX_DIGITS) ==>
                || file == Some(R)
                || (file.None? && |responses| == attempts + 1 && forall i :: 0 <= i < |responses| ==> Interrupted(responses[i]))
    {
      if maxLength < 0 {
        return None, [];
      }
      responses := [];
      var attempt := 0;
      while attempt <= attempts
        invariant 0 <= attempt <= attempts + 1 && |responses| == attempt
        invariant Held(responses, maxLength) == Step(held, Again)
        invariant Asked(server, responses, maxLength)
      {
        var verdict, res := Request(attempt, maxLength);
        HeldNext(responses, res, maxLength);
        ghost var before := responses;
        responses := responses + [res];
        assert responses[..|responses| - 1] == before;
        AskedNext(server, before, res, maxLength);
        ServedFiles(server, responses, maxLength);
        if verdict == Done {
          NeverTooLong(responses, maxLength);
          return Some(held.body), responses;
        }
        if verdict == Failed {
          return None, responses;
        }
        attempt := attempt + 1;
      }
      assert attempts + 1 == |responses|;
      ServedFiles(server, responses, maxLength);
      return None, responses;
    }
  }
}
