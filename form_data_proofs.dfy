/** What `Multipart.Run`, the function `Multipart.Parse` is proved to
    compute, does with a well-formed body: the boundary line, the header
    lines of one part, its data and the closing boundary give back that
    part. */
module MultipartProofs {
  import opened Common
  import opened Text
  import opened FormDataFsm
  import opened Multipart

  // -----------------------------------------------------------------------
  // Reading a body in pieces

  /** Reading `s + t` is reading `s`, then `t` from where `s` left off. */
  lemma {:induction false} FeedConcat(st: FormState, s: bytes, t: bytes)
    ensures Feed(st, s + t) == if Feed(st, s).Some? then Feed(Feed(st, s).value, t) else None
    decreases |s|
  {
    if s == [] {
      assert s + t == t;
    } else {
      assert (s + t)[0] == s[0] && (s + t)[1..] == s[1..] + t;
      match StepByte(st, s[0]) {
        case Stop(_) =>
        case Next(q) => FeedConcat(q, s[1..], t);
      }
    }
  }

  /** A parse that reads all of `s` without returning goes on with `t`
      from the state `s` left it in. */
  lemma {:induction false} RunConcat(st: FormState, s: bytes, t: bytes)
    requires Feed(st, s).Some?
    ensures Run(st, s + t) == Run(Feed(st, s).value, t)
    decreases |s|
  {
    if s == [] {
      assert s + t == t;
    } else {
      var q := StepByte(st, s[0]).st;
      ConsAppend(s, t);
      RunConcat(q, s[1..], t);
      RunUnfold(st, s + t);
    }
  }

  lemma ConsAppend(s: bytes, t: bytes)
    requires |s| > 0
    ensures (s + t)[0] == s[0] && (s + t)[1..] == s[1..] + t
  {
  }

  /** Once the bytes of `s` decide the parse (a form or an error), the
      bytes after them are never looked at. */
  lemma {:induction false} RunExtend(st: FormState, s: bytes, t: bytes)
    requires Run(st, s) != Ok(None)
    ensures Run(st, s + t) == Run(st, s)
    decreases |s|
  {
    assert s != [];
    ConsAppend(s, t);
    RunUnfold(st, s + t);
    match StepByte(st, s[0]) {
      case Stop(_) =>
      case Next(q) => RunExtend(q, s[1..], t);
    }
  }

  /** Reading the first byte of `s`, then the rest. */
  lemma FeedCons(st: FormState, s: bytes, q: FormState, r: FormState)
    requires |s| > 0 && StepByte(st, s[0]) == Next(q) && Feed(q, s[1..]) == Some(r)
    ensures Feed(st, s) == Some(r)
  {
  }

  lemma ConsSplit(t: bytes)
    requires |t| > 0
    ensures [t[0]] + t[1..] == t
    ensures |t| == 1 ==> t == [t[0]] && t[1..] == []
  {
  }

  /** Reading `s` and then `t`. */
  lemma FeedThen(st: FormState, s: bytes, q: FormState, t: bytes, r: FormState)
    requires Feed(st, s) == Some(q) && Feed(q, t) == Some(r)
    ensures Feed(st, s + t) == Some(r)
  {
    FeedConcat(st, s, t);
  }

  // -----------------------------------------------------------------------
  // Well-formed bodies

  /** A byte the boundary line may hold: the machine leaves the boundary
      on CR and has no entry for a blank or a LF there. */
  predicate BoundaryByte(b: byte) { b != SP && b != CR && b != LF }

  /** The first line of a body the parser accepts: a dash, then bytes
      other than blanks and line breaks. */
  predicate IsBoundary(b: bytes) {
    |b| > 0 && b[0] == DASH && forall i | 0 <= i < |b| :: BoundaryByte(b[i])
  }

  /** A byte the machine reads as part of a header name. */
  predicate FieldByte(b: byte) { b != COLON && b != SP && b != CR && b != LF }

  /** A header name the parser accepts: it starts with a byte other than a
      dash and holds no colon, blank or line break. */
  predicate IsField(f: bytes) {
    |f| > 0 && f[0] != DASH && forall i | 0 <= i < |f| :: FieldByte(f[i])
  }

  /** A header value the parser accepts: it does not start with a blank
      and holds no line break. */
  predicate IsValue(v: bytes) { |v| > 0 && v[0] != SP && NoLineBreak(v) }

  /** One header line of a part. */
  datatype PartHeader = PartHeader(field: bytes, value: bytes)

  predicate WellFormedHeaders(hs: seq<PartHeader>) {
    forall k | 0 <= k < |hs| :: IsField(hs[k].field) && IsValue(hs[k].value)
  }

  /** `<name>: <value>\r\n`. */
  function HeaderLineBytes(h: PartHeader): bytes {
    h.field + [COLON, SP] + h.value + CRLF
  }

  function HeaderBytes(hs: seq<PartHeader>): bytes {
    if hs == [] then [] else HeaderLineBytes(hs[0]) + HeaderBytes(hs[1..])
  }

  /** The headers applied to a part in order; the first error wins. */
  function ApplyHeaders(part: FormDataPart, hs: seq<PartHeader>): (r: Result<FormDataPart>)
    ensures r.Ok? ==> r.value.data == part.data
    decreases |hs|
  {
    if hs == [] then Ok(part)
    else
      match ApplyHeader(part, hs[0].field, hs[0].value)
      case Err(e) => Err(e)
      case Ok(p) => ApplyHeaders(p, hs[1..])
  }

  /** `x` is a prefix of `b`. */
  predicate PrefixOf(x: bytes, b: bytes) { |x| <= |b| && b[..|x|] == x }

  /** Data the parser's naive boundary search is sure to read back as it
      is: the boundary does not occur in it, and it does not end in a
      non-empty prefix of the boundary.  A partial match that breaks off,
      of any length, is flushed back into the data.  The condition is
      sufficient, not necessary: an occurrence that starts inside a false
      start is missed and does no harm.  Outside it the round trip can
      fail in three ways: a complete match found inside the data panics
      on the next byte or closes the part early; a match still pending at
      the end of the data can hide the closing boundary; or the pending
      match can join the closing boundary into a match that completes
      early, so the part is stored without the pending bytes and the form
      is then returned truncated or refused. */
  predicate Unambiguous(b: bytes, d: bytes) {
    |b| > 0 && Free(d, b) && forall k | 0 <= k < |d| :: !PrefixOf(d[k..], b)
  }

  /** A form with one part: the boundary line, the header lines, an empty
      line, the data, and the boundary followed by two dashes. */
  function FormBytes(b: bytes, hs: seq<PartHeader>, d: bytes): bytes {
    b + CRLF + HeaderBytes(hs) + CRLF + d + b + [DASH, DASH]
  }

  // -----------------------------------------------------------------------
  // The boundary line

  /** No partial boundary match is under way, so a dash is a plain dash. */
  predicate Quiet(st: FormState) { st.like == [] && st.form.boundary != [] }

  /** A byte outside the data that moves the machine without output. */
  lemma FeedSilent(st: FormState, b: byte, next: State)
    requires st.machine != Data && st.machine != DataToBoundary && Quiet(st)
    requires Consume(st.machine, PlainInput(b)) == Move(next, Silent)
    ensures Feed(st, [b]) == Some(st.(machine := next))
  {
    assert Symbol(st, b) == Ok(PlainInput(b));
    assert StepByte(st, b) == Next(st.(machine := next));
  }

  /** The state after boundary bytes `t`. */
  function WithBoundary(st: FormState, t: bytes): FormState {
    st.(machine := Boundary, form := st.form.(boundary := st.form.boundary + t))
  }

  lemma BoundaryStep(st: FormState, b: byte)
    requires st.machine == Boundary || (st.machine == State.End && b == DASH)
    requires BoundaryByte(b)
    ensures StepByte(st, b) == Next(WithBoundary(st, [b]))
  {
    assert Symbol(st, b) == Ok(PlainInput(b));
  }

  lemma WithBoundaryAppend(st: FormState, s: bytes, t: bytes)
    ensures WithBoundary(WithBoundary(st, s), t) == WithBoundary(st, s + t)
  {
    assert st.form.boundary + s + t == st.form.boundary + (s + t);
  }

  /** The bytes of the boundary line are appended to the boundary. */
  lemma {:induction false} FeedBoundaryBytes(st: FormState, t: bytes)
    requires |t| > 0 && forall i | 0 <= i < |t| :: BoundaryByte(t[i])
    requires st.machine == Boundary || (st.machine == State.End && t[0] == DASH)
    ensures Feed(st, t) == Some(WithBoundary(st, t))
    decreases |t|
  {
    BoundaryStep(st, t[0]);
    ConsSplit(t);
    WithBoundaryAppend(st, [t[0]], t[1..]);
    if |t| > 1 {
      FeedBoundaryBytes(WithBoundary(st, [t[0]]), t[1..]);
    }
    FeedCons(st, t, WithBoundary(st, [t[0]]), WithBoundary(st, t));
  }

  /** The boundary line sets the boundary and leaves the machine expecting
      the first header. */
  lemma FeedBoundaryLine(b: bytes)
    requires IsBoundary(b)
    ensures Feed(Start(), b + CRLF) == Some(Start().(machine := Lf0, form := FormData(b, [])))
  {
    FeedBoundaryBytes(Start(), b);
    var q := WithBoundary(Start(), b);
    BoundaryLineState(b);
    FeedSilent(q, CR, Cr0);
    FeedSilent(q.(machine := Cr0), LF, Lf0);
    FeedThen(q, [CR], q.(machine := Cr0), [LF], q.(machine := Lf0));
    FeedThen(Start(), b, q, [CR] + [LF], q.(machine := Lf0));
  }

  lemma BoundaryLineState(b: bytes)
    ensures WithBoundary(Start(), b) == Start().(machine := Boundary, form := FormData(b, []))
    ensures [CR] + [LF] == CRLF
  {
    assert [] + b == b;
  }

  // -----------------------------------------------------------------------
  // Header lines

  /** The state after the header name bytes `t`. */
  function WithField(st: FormState, t: bytes): FormState {
    st.(machine := HeaderField, headerField := st.headerField + t)
  }

  lemma FieldStep(st: FormState, b: byte)
    requires Quiet(st) && FieldByte(b)
    requires st.machine == HeaderField || ((st.machine == Lf0 || st.machine == Lf1) && b != DASH)
    ensures StepByte(st, b) == Next(WithField(st, [b]))
  {
    assert Symbol(st, b) == Ok(PlainInput(b));
  }

  lemma WithFieldAppend(st: FormState, s: bytes, t: bytes)
    ensures WithField(WithField(st, s), t) == WithField(st, s + t)
  {
    assert st.headerField + s + t == st.headerField + (s + t);
  }

  /** A header name is read byte by byte into `header_field`. */
  lemma {:induction false} FeedField(st: FormState, t: bytes)
    requires Quiet(st) && |t| > 0 && forall i | 0 <= i < |t| :: FieldByte(t[i])
    requires st.machine == HeaderField || ((st.machine == Lf0 || st.machine == Lf1) && t[0] != DASH)
    ensures Feed(st, t) == Some(WithField(st, t))
    decreases |t|
  {
    FieldStep(st, t[0]);
    ConsSplit(t);
    WithFieldAppend(st, [t[0]], t[1..]);
    if |t| > 1 {
      FeedField(WithField(st, [t[0]]), t[1..]);
    }
    FeedCons(st, t, WithField(st, [t[0]]), WithField(st, t));
  }

  /** The state after the header value bytes `t`. */
  function WithValue(st: FormState, t: bytes): FormState {
    st.(machine := HeaderValue, headerValue := st.headerValue + t)
  }

  lemma ValueStep(st: FormState, b: byte)
    requires Quiet(st) && b != CR && b != LF
    requires st.machine == HeaderValue || (st.machine == State.Blank && b != SP)
    ensures StepByte(st, b) == Next(WithValue(st, [b]))
  {
    assert Symbol(st, b) == Ok(PlainInput(b));
  }

  lemma WithValueAppend(st: FormState, s: bytes, t: bytes)
    ensures WithValue(WithValue(st, s), t) == WithValue(st, s + t)
  {
    assert st.headerValue + s + t == st.headerValue + (s + t);
  }

  /** A header value is read byte by byte into `header_value`. */
  lemma {:induction false} FeedValue(st: FormState, t: bytes)
    requires Quiet(st) && |t| > 0 && NoLineBreak(t)
    requires st.machine == HeaderValue || (st.machine == State.Blank && t[0] != SP)
    ensures Feed(st, t) == Some(WithValue(st, t))
    decreases |t|
  {
    ValueStep(st, t[0]);
    ConsSplit(t);
    WithValueAppend(st, [t[0]], t[1..]);
    if |t| > 1 {
      FeedValue(WithValue(st, [t[0]]), t[1..]);
    }
    FeedCons(st, t, WithValue(st, [t[0]]), WithValue(st, t));
  }

  /** CR applies the header read so far to the part; LF then waits for the
      next header or the empty line. */
  lemma HeaderEnd(st: FormState, p: FormDataPart)
    requires st.machine == HeaderValue && Quiet(st)
    requires ApplyHeader(st.part, st.headerField, st.headerValue) == Ok(p)
    ensures Feed(st, CRLF) == Some(st.(machine := Lf1, part := p, headerField := [], headerValue := []))
  {
    var q := st.(machine := Cr1, part := p, headerField := [], headerValue := []);
    CommitStep(st, p);
    FeedSilent(q, LF, Lf1);
    FeedThen(st, [CR], q, [LF], q.(machine := Lf1));
    assert [CR] + [LF] == CRLF;
  }

  lemma CommitStep(st: FormState, p: FormDataPart)
    requires st.machine == HeaderValue && Quiet(st)
    requires ApplyHeader(st.part, st.headerField, st.headerValue) == Ok(p)
    ensures StepByte(st, CR) == Next(st.(machine := Cr1, part := p, headerField := [], headerValue := []))
  {
    assert Symbol(st, CR) == Ok(Cr);
    assert Consume(HeaderValue, Cr) == Move(Cr1, EffectAppendHeader);
    CommitEffect(st.(machine := Cr1), p);
  }

  lemma CommitEffect(q: FormState, p: FormDataPart)
    requires ApplyHeader(q.part, q.headerField, q.headerValue) == Ok(p)
    ensures Effect(q, EffectAppendHeader, CR) == Next(q.(part := p, headerField := [], headerValue := []))
  {
  }


  /** One header line applies its header to the part. */
  lemma FeedHeaderLine(st: FormState, h: PartHeader)
    requires (st.machine == Lf0 || st.machine == Lf1) && Quiet(st)
    requires st.headerField == [] && st.headerValue == []
    requires IsField(h.field) && IsValue(h.value)
    requires ApplyHeader(st.part, h.field, h.value).Ok?
    ensures Feed(st, HeaderLineBytes(h))
         == Some(st.(machine := Lf1, part := ApplyHeader(st.part, h.field, h.value).value))
  {
    var f, v := h.field, h.value;
    var p3 := WithField(st, f).(machine := State.Blank);
    FeedFieldPrefix(st, f);
    FeedValue(p3, v);
    var p4 := WithValue(p3, v);
    FeedThen(st, f + [COLON] + [SP], p3, v, p4);
    HeaderLineState(st, h);
    HeaderEnd(p4, ApplyHeader(st.part, f, v).value);
    FeedThen(st, f + [COLON] + [SP] + v, p4, CRLF,
             st.(machine := Lf1, part := ApplyHeader(st.part, f, v).value));
  }

  /** The name of a header, its colon and the blank after it. */
  lemma FeedFieldPrefix(st: FormState, f: bytes)
    requires (st.machine == Lf0 || st.machine == Lf1) && Quiet(st)
    requires st.headerField == [] && st.headerValue == []
    requires IsField(f)
    ensures Feed(st, f + [COLON] + [SP]) == Some(WithField(st, f).(machine := State.Blank))
  {
    FeedField(st, f);
    var p1 := WithField(st, f);
    FeedSilent(p1, COLON, State.Colon);
    var p2 := p1.(machine := State.Colon);
    FeedThen(st, f, p1, [COLON], p2);
    FeedSilent(p2, SP, State.Blank);
    FeedThen(st, f + [COLON], p2, [SP], p2.(machine := State.Blank));
  }

  lemma HeaderLineState(st: FormState, h: PartHeader)
    requires st.headerField == [] && st.headerValue == []
    ensures h.field + [COLON] + [SP] + h.value + CRLF == HeaderLineBytes(h)
    ensures var p4 := WithValue(WithField(st, h.field).(machine := State.Colon).(machine := State.Blank), h.value);
      p4.part == st.part && p4.headerField == h.field && p4.headerValue == h.value
      && p4.like == st.like && p4.form == st.form && p4.machine == HeaderValue
      && p4.(machine := Lf1, headerField := [], headerValue := []) == st.(machine := Lf1)
  {
    assert [] + h.field == h.field && [] + h.value == h.value;
  }

  /** The header lines apply their headers to the part in order. */
  lemma {:induction false} FeedHeaders(st: FormState, hs: seq<PartHeader>)
    requires st.machine == Lf1 || (st.machine == Lf0 && |hs| > 0)
    requires Quiet(st) && st.headerField == [] && st.headerValue == []
    requires WellFormedHeaders(hs) && ApplyHeaders(st.part, hs).Ok?
    ensures Feed(st, HeaderBytes(hs)) == Some(st.(machine := Lf1, part := ApplyHeaders(st.part, hs).value))
    decreases |hs|
  {
    if hs == [] {
      assert st.(machine := Lf1, part := st.part) == st;
    } else {
      var p := ApplyHeader(st.part, hs[0].field, hs[0].value).value;
      FeedHeaderLine(st, hs[0]);
      var q := st.(machine := Lf1, part := p);
      FeedHeaders(q, hs[1..]);
      FeedThen(st, HeaderLineBytes(hs[0]), q, HeaderBytes(hs[1..]),
               st.(machine := Lf1, part := ApplyHeaders(st.part, hs).value));
    }
  }

  /** The head of a form: boundary line, header lines and the empty line. */
  function HeadBytes(b: bytes, hs: seq<PartHeader>): bytes {
    b + CRLF + HeaderBytes(hs) + CRLF
  }

  /** The state the head leaves the parser in: the boundary set, the
      headers applied, the machine at the start of the data. */
  function AfterHead(b: bytes, p: FormDataPart): FormState {
    Start().(machine := Lf2, form := FormData(b, []), part := p)
  }

  /** The boundary line and the header lines. */
  lemma FeedHeaderSection(b: bytes, hs: seq<PartHeader>)
    requires IsBoundary(b)
    requires |hs| > 0 && WellFormedHeaders(hs) && ApplyHeaders(NewPart(), hs).Ok?
    ensures Feed(Start(), b + CRLF + HeaderBytes(hs))
         == Some(AfterHead(b, ApplyHeaders(NewPart(), hs).value).(machine := Lf1))
  {
    FeedBoundaryLine(b);
    var s1 := Start().(machine := Lf0, form := FormData(b, []));
    FeedHeaders(s1, hs);
    FeedThen(Start(), b + CRLF, s1, HeaderBytes(hs), s1.(machine := Lf1, part := ApplyHeaders(NewPart(), hs).value));
  }

  lemma FeedHead(b: bytes, hs: seq<PartHeader>)
    requires IsBoundary(b)
    requires |hs| > 0 && WellFormedHeaders(hs) && ApplyHeaders(NewPart(), hs).Ok?
    ensures Feed(Start(), HeadBytes(b, hs)) == Some(AfterHead(b, ApplyHeaders(NewPart(), hs).value))
  {
    var s3 := AfterHead(b, ApplyHeaders(NewPart(), hs).value);
    var s2 := s3.(machine := Lf1);
    FeedHeaderSection(b, hs);
    FeedEmptyLine(s2);
    FeedThen(Start(), b + CRLF + HeaderBytes(hs), s2, CRLF, s3);
  }

  /** The empty line after the headers. */
  lemma FeedEmptyLine(st: FormState)
    requires st.machine == Lf1 && Quiet(st)
    ensures Feed(st, CRLF) == Some(st.(machine := Lf2))
  {
    FeedSilent(st, CR, Cr2);
    FeedSilent(st.(machine := Cr2), LF, Lf2);
    FeedThen(st, [CR], st.(machine := Cr2), [LF], st.(machine := Lf2));
    assert [CR] + [LF] == CRLF;
  }

  // -----------------------------------------------------------------------
  // The data and the closing boundary

  /** The state after data bytes `t`, with no partial match pending. */
  function WithData(st: FormState, t: bytes): FormState {
    st.(machine := Data, part := st.part.(data := st.part.data + t))
  }

  lemma WithDataAppend(st: FormState, s: bytes, t: bytes)
    ensures WithData(WithData(st, s), t) == WithData(st, s + t)
  {
    assert st.part.data + s + t == st.part.data + (s + t);
  }

  lemma EmptyLike(st: FormState, b: byte)
    requires st.like == []
    ensures st.part.data + st.like + [b] == st.part.data + [b]
  {
  }

  /** The first byte of the data: anything but a blank. */
  lemma FirstDataStep(st: FormState, b: byte)
    requires st.machine == Lf2 && Quiet(st) && b != SP
    ensures StepByte(st, b) == Next(WithData(st, [b]))
  {
    assert Symbol(st, b) == Ok(PlainInput(b));
    EmptyLike(st, b);
  }

  /** The state after a byte `t` that breaks the partial match (or
      starts none): the match and `t` go to the data. */
  function Flushed(st: FormState, t: bytes): FormState {
    st.(machine := Data, part := st.part.(data := st.part.data + st.like + t), like := [])
  }

  /** The state after bytes `t` that continue the partial match. */
  function WithLike(st: FormState, t: bytes): FormState {
    st.(machine := DataToBoundary, like := st.like + t)
  }

  /** A byte that continues the partial boundary match. */
  lemma MatchStep(st: FormState, b: byte)
    requires st.machine == Data || st.machine == DataToBoundary
    requires |st.like| < |st.form.boundary| && st.form.boundary[|st.like|] == b
    ensures StepByte(st, b) == Next(WithLike(st, [b]))
  {
    assert st.like != st.form.boundary;
    assert Symbol(st, b) == Ok(BoundaryLike);
  }

  /** A byte that does not continue the partial match, however long: the
      match and the byte go to the data, and the byte is not compared with
      the boundary's first byte again. */
  lemma BreakStep(st: FormState, b: byte)
    requires st.machine == Data || st.machine == DataToBoundary
    requires |st.like| < |st.form.boundary| && st.form.boundary[|st.like|] != b
    ensures StepByte(st, b) == Next(Flushed(st, [b]))
  {
    assert st.like != st.form.boundary;
    assert Symbol(st, b) == Ok(PlainInput(b));
  }

  /** A false start of any length: the first `k` bytes of the boundary and
      a byte that does not continue them end up in the data. */
  lemma FalseStart(st: FormState, k: nat, c: byte)
    requires st.machine == Data && Quiet(st)
    requires 0 < k < |st.form.boundary| && st.form.boundary[k] != c
    ensures Feed(st, st.form.boundary[..k] + [c]) == Some(WithData(st, st.form.boundary[..k] + [c]))
  {
    var b := st.form.boundary;
    PrefixContinues(b, k);
    FeedMatch(st, b[..k]);
    var q := WithLike(st, b[..k]);
    BreakStep(q, c);
    FeedCons(q, [c], Flushed(q, [c]), Flushed(q, [c]));
    FalseStartState(st, b[..k], c);
    FeedThen(st, b[..k], q, [c], WithData(st, b[..k] + [c]));
  }

  lemma PrefixContinues(b: bytes, k: nat)
    requires k <= |b|
    ensures Continues([], b, b[..k])
  {
  }

  lemma FalseStartState(st: FormState, m: bytes, c: byte)
    requires st.like == []
    ensures Flushed(WithLike(st, m), [c]) == WithData(st, m + [c])
  {
    assert st.part.data + ([] + m) + [c] == st.part.data + (m + [c]);
  }

  lemma UnambiguousSuffix(b: bytes, s: bytes, k: nat)
    requires Unambiguous(b, s) && k <= |s|
    ensures Unambiguous(b, s[k..])
  {
    forall j: nat | j <= |s[k..]| ensures !OccursAt(s[k..], b, j) {
      OccursShift(s, b, k, j);
    }
    forall i | 0 <= i < |s[k..]| ensures !PrefixOf(s[k..][i..], b) {
      assert s[k..][i..] == s[k + i..];
    }
  }

  /** An occurrence in a suffix is an occurrence in the whole. */
  lemma OccursShift(s: bytes, b: bytes, k: nat, j: nat)
    requires k <= |s|
    ensures OccursAt(s[k..], b, j) ==> OccursAt(s, b, k + j)
  {
    if OccursAt(s[k..], b, j) {
      assert s[k..][j..j + |b|] == s[k + j..k + j + |b|];
    }
  }

  /** Data in which the boundary's first byte is always followed at once
      by a byte other than its second is unambiguous. */
  lemma NoDoubleStart(b: bytes, d: bytes)
    requires |b| >= 2
    requires forall i | 0 <= i < |d| && d[i] == b[0] :: i + 1 < |d| && d[i + 1] != b[1]
    ensures Unambiguous(b, d)
  {
    forall j: nat | j <= |d| ensures !OccursAt(d, b, j) {
      OccurrenceStart(d, b, j);
    }
    forall k | 0 <= k < |d| ensures !PrefixOf(d[k..], b) {
      PrefixStart(d, b, k);
    }
  }

  /** An occurrence of the boundary starts with its first two bytes. */
  lemma OccurrenceStart(d: bytes, b: bytes, j: nat)
    requires |b| >= 2
    ensures OccursAt(d, b, j) ==> j + 1 < |d| && d[j] == b[0] && d[j + 1] == b[1]
  {
    if OccursAt(d, b, j) {
      assert d[j..j + |b|][0] == d[j] && d[j..j + |b|][1] == d[j + 1];
    }
  }

  /** A tail that is a prefix of the boundary starts with its first bytes. */
  lemma PrefixStart(d: bytes, b: bytes, k: nat)
    requires |b| >= 2 && k < |d|
    ensures PrefixOf(d[k..], b) ==> d[k] == b[0] && (k + 1 < |d| ==> d[k + 1] == b[1])
  {
    if PrefixOf(d[k..], b) {
      assert d[k..][0] == d[k];
      if k + 1 < |d| {
        assert d[k..][1] == d[k + 1];
      }
    }
  }

  /** A partial match under way, or none: what the data states hold. */
  predicate PartialMatch(st: FormState) {
    && ((st.machine == Data && st.like == []) || (st.machine == DataToBoundary && st.like != []))
    && |st.like| < |st.form.boundary| && PrefixOf(st.like, st.form.boundary)
  }

  /** Data bytes `d` read with the partial match `like` pending: when
      `like + d` is unambiguous, the match and all of `d` end up in the
      data, in order, with no match pending. */
  lemma {:induction false} FeedData(st: FormState, d: bytes)
    requires PartialMatch(st)
    requires Unambiguous(st.form.boundary, st.like + d)
    ensures Feed(st, d) == Some(Flushed(st, d))
    decreases |d|
  {
    var b := st.form.boundary;
    if d == [] {
      NothingPending(st);
    } else if b[|st.like|] == d[0] {
      MatchRoom(st, d);
      MatchStep(st, d[0]);
      var q := WithLike(st, [d[0]]);
      FeedData(q, d[1..]);
      FeedCons(st, d, q, Flushed(st, d));
    } else {
      BreakStep(st, d[0]);
      var q := Flushed(st, [d[0]]);
      BreakRest(st, d);
      FeedData(q, d[1..]);
      FeedCons(st, d, q, Flushed(st, d));
    }
  }

  /** At the end of unambiguous data no match is pending. */
  lemma NothingPending(st: FormState)
    requires PartialMatch(st) && Unambiguous(st.form.boundary, st.like + [])
    ensures Flushed(st, []) == st
  {
    assert st.like + [] == st.like == st.like[0..];
    assert st.part.data + [] + [] == st.part.data;
  }

  /** A byte that continues the match cannot complete it inside the data. */
  lemma MatchRoom(st: FormState, d: bytes)
    requires PartialMatch(st) && Unambiguous(st.form.boundary, st.like + d)
    requires |d| > 0 && st.form.boundary[|st.like|] == d[0]
    ensures var q := WithLike(st, [d[0]]);
      PartialMatch(q) && q.like + d[1..] == st.like + d && Flushed(q, d[1..]) == Flushed(st, d)
  {
    var b, m := st.form.boundary, st.like + [d[0]];
    assert m == b[..|m|];
    if |m| == |b| {
      assert (st.like + d)[0..|b|] == m;
      assert OccursAt(st.like + d, b, 0);
    }
    assert m + d[1..] == st.like + d;
    assert st.part.data + m + d[1..] == st.part.data + st.like + d;
  }

  /** After a broken match the rest of the data is read from scratch. */
  lemma BreakRest(st: FormState, d: bytes)
    requires PartialMatch(st) && Unambiguous(st.form.boundary, st.like + d) && |d| > 0
    ensures var q := Flushed(st, [d[0]]);
      PartialMatch(q) && Unambiguous(q.form.boundary, q.like + d[1..]) && Flushed(q, d[1..]) == Flushed(st, d)
  {
    var s := st.like + d;
    UnambiguousSuffix(st.form.boundary, s, |st.like| + 1);
    assert s[|st.like| + 1..] == d[1..] == [] + d[1..];
    assert st.part.data + st.like + [d[0]] + [] + d[1..] == st.part.data + st.like + d;
  }

  /** The data of a part: its first byte is read in `Lf2`, where it is
      never compared with the boundary, and the rest as above. */
  lemma FeedPayload(st: FormState, d: bytes)
    requires st.machine == Lf2 && Quiet(st)
    requires |d| > 0 && d[0] != SP && Unambiguous(st.form.boundary, d[1..])
    ensures Feed(st, d) == Some(WithData(st, d))
  {
    FirstDataStep(st, d[0]);
    var q := WithData(st, [d[0]]);
    PayloadState(st, d);
    FeedData(q, d[1..]);
    FeedCons(st, d, q, WithData(st, d));
  }

  lemma PayloadState(st: FormState, d: bytes)
    requires st.machine == Lf2 && Quiet(st) && |d| > 0
    ensures var q := WithData(st, [d[0]]);
      PartialMatch(q) && q.like + d[1..] == d[1..] && Flushed(q, d[1..]) == WithData(st, d)
  {
    assert st.part.data + [d[0]] + [] + d[1..] == st.part.data + d;
  }

  /** Bytes that continue the partial match extend it. */
  lemma {:induction false} FeedMatch(st: FormState, t: bytes)
    requires st.machine == Data || st.machine == DataToBoundary
    requires |t| > 0 && Continues(st.like, st.form.boundary, t)
    ensures Feed(st, t) == Some(WithLike(st, t))
    decreases |t|
  {
    MatchStep(st, t[0]);
    var q := WithLike(st, [t[0]]);
    assert Feed(st, [t[0]]) == Some(q);
    if |t| == 1 {
      assert t == [t[0]];
    } else {
      ContinuesRest(st.like, st.form.boundary, t);
      FeedMatch(q, t[1..]);
      FeedThen(st, [t[0]], q, t[1..], WithLike(q, t[1..]));
      WithLikeAppend(st, [t[0]], t[1..]);
      assert [t[0]] + t[1..] == t;
    }
  }

  /** `t` continues the partial match `like` of the boundary `b`. */
  predicate Continues(like: bytes, b: bytes, t: bytes) {
    |like| + |t| <= |b| && forall j | 0 <= j < |t| :: t[j] == b[|like| + j]
  }

  lemma ContinuesRest(like: bytes, b: bytes, t: bytes)
    requires |t| > 0 && Continues(like, b, t)
    ensures Continues(like + [t[0]], b, t[1..])
  {
    forall j | 0 <= j < |t[1..]| ensures t[1..][j] == b[|like + [t[0]]| + j] {
      assert t[1..][j] == t[j + 1];
    }
  }

  lemma WithLikeAppend(st: FormState, s: bytes, t: bytes)
    ensures WithLike(WithLike(st, s), t) == WithLike(st, s + t)
  {
    assert st.like + s + t == st.like + (s + t);
  }

  /** The complete boundary and two dashes store the part and return the
      form; what follows is never read. */
  lemma RunClose(st: FormState, tail: bytes)
    requires st.machine == DataToBoundary && st.like == st.form.boundary
    ensures Run(st, [DASH, DASH] + tail) == Ok(Some(st.form.(parts := st.form.parts + [st.part])))
  {
    assert Symbol(st, DASH) == Ok(EndDash);
    var q := st.(machine := EndDash1, form := st.form.(parts := st.form.parts + [st.part]));
    assert StepByte(st, DASH) == Next(q);
    assert Symbol(q, DASH) == Ok(EndDash);
    assert StepByte(q, DASH) == Stop(Ok(Some(q.form)));
    CloseSplit(tail);
  }

  lemma CloseSplit(tail: bytes)
    ensures ([DASH, DASH] + tail)[0] == DASH && ([DASH, DASH] + tail)[1..] == [DASH] + tail
    ensures ([DASH] + tail)[0] == DASH
  {
  }

  /** The data and the boundary after it, from the start of the data. */
  lemma FeedBody(st: FormState, d: bytes)
    requires st.machine == Lf2 && Quiet(st) && st.form.boundary[0] == DASH
    requires |d| > 0 && d[0] != SP && Unambiguous(st.form.boundary, d[1..])
    ensures Feed(st, d + st.form.boundary) == Some(WithLike(WithData(st, d), st.form.boundary))
  {
    var b := st.form.boundary;
    FeedPayload(st, d);
    ContinuesWhole(b);
    FeedMatch(WithData(st, d), b);
    FeedThen(st, d, WithData(st, d), b, WithLike(WithData(st, d), b));
  }

  lemma ContinuesWhole(b: bytes)
    ensures Continues([], b, b)
  {
  }

  lemma ClosingState(b: bytes, p: FormDataPart, d: bytes)
    requires p.data == []
    ensures var st := WithLike(WithData(AfterHead(b, p), d), b);
      st.machine == DataToBoundary && st.like == st.form.boundary
      && st.form.(parts := st.form.parts + [st.part]) == FormData(b, [p.(data := d)])
  {
    assert [] + d == d && [] + b == b;
  }

  lemma FormBytesSplit(b: bytes, hs: seq<PartHeader>, d: bytes, tail: bytes)
    ensures FormBytes(b, hs, d) + tail == HeadBytes(b, hs) + (d + b) + ([DASH, DASH] + tail)
  {
  }

  /** A well-formed form with one part is parsed into that part: its
      headers applied in order, its data exactly the bytes between the
      empty line and the closing boundary. */
  lemma ParseSinglePart(b: bytes, hs: seq<PartHeader>, d: bytes, tail: bytes)
    requires IsBoundary(b)
    requires |hs| > 0 && WellFormedHeaders(hs) && ApplyHeaders(NewPart(), hs).Ok?
    requires |d| > 0 && d[0] != SP && Unambiguous(b, d[1..])
    ensures Run(Start(), FormBytes(b, hs, d) + tail)
         == Ok(Some(FormData(b, [ApplyHeaders(NewPart(), hs).value.(data := d)])))
  {
    var p := ApplyHeaders(NewPart(), hs).value;
    FeedHead(b, hs);
    var s3 := AfterHead(b, p);
    FeedBody(s3, d);
    var s6 := WithLike(WithData(s3, d), b);
    FeedThen(Start(), HeadBytes(b, hs), s3, d + b, s6);
    FormBytesSplit(b, hs, d, tail);
    RunConcat(Start(), HeadBytes(b, hs) + (d + b), [DASH, DASH] + tail);
    ClosingState(b, p, d);
    RunClose(s6, tail);
  }

  // -----------------------------------------------------------------------
  // What the parser does not accept

  /** After a complete boundary in the data, any byte but a dash makes the
      parser look up the boundary byte past the end and panic.  The CR
      that starts a second part is such a byte, so a form with two parts
      is never parsed. */
  lemma SecondPartPanics(b: bytes, hs: seq<PartHeader>, d: bytes, x: byte, tail: bytes)
    requires IsBoundary(b)
    requires |hs| > 0 && WellFormedHeaders(hs) && ApplyHeaders(NewPart(), hs).Ok?
    requires |d| > 0 && d[0] != SP && Unambiguous(b, d[1..])
    requires x != DASH
    ensures Run(Start(), HeadBytes(b, hs) + (d + b) + ([x] + tail)) == Err(IndexOutOfBounds)
  {
    var s3 := AfterHead(b, ApplyHeaders(NewPart(), hs).value);
    FeedHead(b, hs);
    FeedBody(s3, d);
    var s6 := WithLike(WithData(s3, d), b);
    FeedThen(Start(), HeadBytes(b, hs), s3, d + b, s6);
    RunConcat(Start(), HeadBytes(b, hs) + (d + b), [x] + tail);
    ClosingState(b, ApplyHeaders(NewPart(), hs).value, d);
    assert Symbol(s6, x) == Err(IndexOutOfBounds);
    assert ([x] + tail)[0] == x;
  }

  /** With a boundary `--x`, data that ends in a dash, the boundary's
      first byte, hides the closing boundary: the dash and the boundary's
      two leading dashes make a partial match of three dashes, whose third
      dash breaks it off, so the real boundary is matched from its second
      byte on and the body ends with the match still pending.  The whole
      body is read and no form is returned. */
  lemma PendingMatchHidesClose(b: bytes, hs: seq<PartHeader>, d: bytes)
    requires IsBoundary(b) && |b| == 3 && b[1] == DASH && b[2] != DASH
    requires |hs| > 0 && WellFormedHeaders(hs) && ApplyHeaders(NewPart(), hs).Ok?
    requires |d| > 0 && d[0] != SP && Unambiguous(b, d[1..])
    ensures Run(Start(), FormBytes(b, hs, d + [DASH])) == Ok(None)
  {
    var s3 := AfterHead(b, ApplyHeaders(NewPart(), hs).value);
    FeedHead(b, hs);
    FeedPayload(s3, d);
    var q0 := WithData(s3, d);
    FeedThen(Start(), HeadBytes(b, hs), s3, d, q0);
    HiddenClose(q0);
    var q6 := Feed(q0, [DASH] + b + [DASH, DASH]).value;
    FeedThen(Start(), HeadBytes(b, hs) + d, q0, [DASH] + b + [DASH, DASH], q6);
    PendingSplit(b, hs, d);
    FeedRunsOut(Start(), FormBytes(b, hs, d + [DASH]));
  }

  lemma PendingSplit(b: bytes, hs: seq<PartHeader>, d: bytes)
    ensures FormBytes(b, hs, d + [DASH]) == HeadBytes(b, hs) + d + ([DASH] + b + [DASH, DASH])
  {
  }

  /** From the data state with nothing pending, a dash, the boundary `--x`
      and two dashes leave a partial match of two dashes pending. */
  lemma HiddenClose(q0: FormState)
    requires q0.machine == Data && q0.like == []
    requires var b := q0.form.boundary; |b| == 3 && b[0] == DASH && b[1] == DASH && b[2] != DASH
    ensures var q := Feed(q0, [DASH] + q0.form.boundary + [DASH, DASH]);
      q.Some? && q.value.machine == DataToBoundary && q.value.like == [DASH, DASH]
  {
    MatchStep(q0, DASH);
    var q1 := WithLike(q0, [DASH]);
    MatchStep(q1, DASH);
    var q2 := WithLike(q1, [DASH]);
    BreakStep(q2, DASH);
    var q3 := Flushed(q2, [DASH]);
    var x := q0.form.boundary[2];
    BreakStep(q3, x);
    var q4 := Flushed(q3, [x]);
    MatchStep(q4, DASH);
    var q5 := WithLike(q4, [DASH]);
    MatchStep(q5, DASH);
    var q6 := WithLike(q5, [DASH]);
    var t := [DASH] + q0.form.boundary + [DASH, DASH];
    assert t == [DASH, DASH, DASH, x, DASH, DASH];
    FeedCons(q5, t[5..], q6, q6);
    FeedCons(q4, t[4..], q5, q6);
    FeedCons(q3, t[3..], q4, q6);
    FeedCons(q2, t[2..], q3, q6);
    FeedCons(q1, t[1..], q2, q6);
    FeedCons(q0, t, q1, q6);
  }

  /** Bytes that are all read without the parse returning give no form. */
  lemma FeedRunsOut(st: FormState, s: bytes)
    requires Feed(st, s).Some?
    ensures Run(st, s) == Ok(None)
  {
    RunConcat(st, s, []);
    assert s + [] == s;
  }

  /** With a boundary of dashes only, data that ends in a dash loses that
      dash: the pending dash and all but the last dash of the closing
      boundary complete a match, its last dash stores the part without
      the pending dash, and the first of the two closing dashes returns
      the form. */
  lemma PendingMatchTruncates(b: bytes, hs: seq<PartHeader>, d: bytes)
    requires IsBoundary(b) && |b| >= 2 && forall i | 0 <= i < |b| :: b[i] == DASH
    requires |hs| > 0 && WellFormedHeaders(hs) && ApplyHeaders(NewPart(), hs).Ok?
    requires |d| > 0 && d[0] != SP && Unambiguous(b, d[1..])
    ensures Run(Start(), FormBytes(b, hs, d + [DASH]))
         == Ok(Some(FormData(b, [ApplyHeaders(NewPart(), hs).value.(data := d)])))
  {
    var p := ApplyHeaders(NewPart(), hs).value;
    var s3 := AfterHead(b, p);
    FeedHead(b, hs);
    FeedPayload(s3, d);
    var q0 := WithData(s3, d);
    FeedThen(Start(), HeadBytes(b, hs), s3, d, q0);
    TruncatedSplit(b, hs, d);
    TruncatesFromData(q0);
    RunConcat(Start(), HeadBytes(b, hs) + d, b + ([DASH, DASH] + [DASH]));
    ClosingState(b, p, d);
  }

  /** From the data state, a boundary of dashes followed by three more
      dashes returns the form with the part as it stands. */
  lemma TruncatesFromData(q0: FormState)
    requires q0.machine == Data && q0.like == []
    requires var b := q0.form.boundary; |b| >= 2 && forall i | 0 <= i < |b| :: b[i] == DASH
    ensures var q := WithLike(q0, q0.form.boundary);
      Run(q0, q0.form.boundary + ([DASH, DASH] + [DASH]))
      == Ok(Some(q.form.(parts := q.form.parts + [q.part])))
  {
    var b := q0.form.boundary;
    DashesComplete(q0);
    var q := WithLike(q0, b);
    RunConcat(q0, b, [DASH, DASH] + [DASH]);
    RunClose(q, [DASH]);
  }

  /** A pending dash and all but one dash of a boundary of dashes. */
  lemma DashesComplete(q0: FormState)
    requires q0.machine == Data && q0.like == []
    requires var b := q0.form.boundary; |b| >= 2 && forall i | 0 <= i < |b| :: b[i] == DASH
    ensures var b := q0.form.boundary;
      Feed(q0, [DASH] + b[..|b| - 1]) == Some(WithLike(q0, [DASH] + b[..|b| - 1]))
      && [DASH] + b[..|b| - 1] == b
  {
    var b := q0.form.boundary;
    var t := [DASH] + b[..|b| - 1];
    assert Continues([], b, t);
    FeedMatch(q0, t);
    assert t == b;
  }

  /** The trailing dash of the data moves behind the closing boundary. */
  lemma TruncatedSplit(b: bytes, hs: seq<PartHeader>, d: bytes)
    requires forall i | 0 <= i < |b| :: b[i] == DASH
    ensures FormBytes(b, hs, d + [DASH])
         == (HeadBytes(b, hs) + d) + (b + ([DASH, DASH] + [DASH]))
  {
    assert forall i | 0 <= i < |b| + 1 :: ([DASH] + b)[i] == DASH && (b + [DASH])[i] == DASH;
    assert [DASH] + b == b + [DASH];
  }

  /** With a boundary `-x-x`, data that ends in `-x` is refused: the
      pending `-x` and the first half of the closing boundary complete a
      match, the next `-` stores the part without the pending bytes, and
      the `x` after it has no entry in `EndDash1`. */
  lemma PendingMatchRefused(b: bytes, hs: seq<PartHeader>, d: bytes)
    requires IsBoundary(b) && |b| == 4 && b[1] != DASH && b[2] == DASH && b[3] == b[1]
    requires |hs| > 0 && WellFormedHeaders(hs) && ApplyHeaders(NewPart(), hs).Ok?
    requires |d| > 0 && d[0] != SP && Unambiguous(b, d[1..])
    ensures Run(Start(), FormBytes(b, hs, d + [DASH, b[1]])) == Err(TransitionImpossible)
  {
    var s3 := AfterHead(b, ApplyHeaders(NewPart(), hs).value);
    FeedHead(b, hs);
    FeedPayload(s3, d);
    var q0 := WithData(s3, d);
    FeedThen(Start(), HeadBytes(b, hs), s3, d, q0);
    RefusedSplit(b, hs, d);
    RefusedFromData(q0);
    RunConcat(Start(), HeadBytes(b, hs) + d, b + [DASH] + ([b[1]] + [DASH, DASH]));
  }

  /** From the data state, a boundary `-x-x` followed by `-x--` stores
      the part at the fifth byte and is refused at the sixth. */
  lemma RefusedFromData(q0: FormState)
    requires q0.machine == Data && q0.like == []
    requires var b := q0.form.boundary; |b| == 4 && b[0] == DASH && b[1] != DASH && b[2] == DASH && b[3] == b[1]
    ensures var b := q0.form.boundary; Run(q0, b + [DASH] + ([b[1]] + [DASH, DASH])) == Err(TransitionImpossible)
  {
    var b := q0.form.boundary;
    RepeatComplete(q0);
    var q := WithLike(q0, b);
    var q5 := q.(machine := EndDash1, form := q.form.(parts := q.form.parts + [q.part]));
    StoreStep(q);
    FeedCons(q, [DASH], q5, q5);
    FeedThen(q0, b, q, [DASH], q5);
    RefuseStep(q5, b[1]);
    StopAfter(q0, b + [DASH], q5, b[1], [DASH, DASH]);
  }

  /** The first dash after a complete match stores the part. */
  lemma StoreStep(q: FormState)
    requires q.machine == DataToBoundary && q.like == q.form.boundary
    ensures StepByte(q, DASH)
         == Next(q.(machine := EndDash1, form := q.form.(parts := q.form.parts + [q.part])))
  {
    assert Symbol(q, DASH) == Ok(EndDash);
  }

  /** After the part is stored only a second dash is accepted. */
  lemma RefuseStep(q: FormState, x: byte)
    requires q.machine == EndDash1 && x != DASH
    ensures StepByte(q, x) == Stop(Err(TransitionImpossible))
  {
    assert Symbol(q, x) == Ok(PlainInput(x));
  }

  /** A pending `-x` and the first half of the closing boundary `-x-x`. */
  lemma RepeatComplete(q0: FormState)
    requires q0.machine == Data && q0.like == []
    requires var b := q0.form.boundary; |b| == 4 && b[0] == DASH && b[2] == DASH && b[3] == b[1]
    ensures Feed(q0, q0.form.boundary) == Some(WithLike(q0, q0.form.boundary))
  {
    var b := q0.form.boundary;
    assert Continues([], b, b);
    FeedMatch(q0, b);
  }

  lemma RefusedSplit(b: bytes, hs: seq<PartHeader>, d: bytes)
    requires |b| == 4 && b[0] == DASH && b[2] == DASH && b[3] == b[1]
    ensures FormBytes(b, hs, d + [DASH, b[1]])
         == (HeadBytes(b, hs) + d) + (b + [DASH] + ([b[1]] + [DASH, DASH]))
  {
    assert b == [DASH, b[1], DASH, b[1]];
    assert [DASH, b[1]] + b == b + [DASH, b[1]];
  }

  /** The machine has no entry for a blank as the first byte of the data,
      so data that starts with a space is rejected. */
  lemma BlankFirstRejected(b: bytes, hs: seq<PartHeader>, tail: bytes)
    requires IsBoundary(b)
    requires |hs| > 0 && WellFormedHeaders(hs) && ApplyHeaders(NewPart(), hs).Ok?
    ensures Run(Start(), HeadBytes(b, hs) + ([SP] + tail)) == Err(TransitionImpossible)
  {
    var s3 := AfterHead(b, ApplyHeaders(NewPart(), hs).value);
    FeedHead(b, hs);
    BlankStep(s3);
    StopAfter(Start(), HeadBytes(b, hs), s3, SP, tail);
  }

  /** In `Lf2` the machine has no entry for a blank. */
  lemma BlankStep(st: FormState)
    requires st.machine == Lf2
    ensures StepByte(st, SP) == Stop(Err(TransitionImpossible))
  {
    assert Symbol(st, SP) == Ok(Input.Blank);
  }

  /** A parse that reads `s` into `q` and then stops at byte `x`. */
  lemma StopAfter(st: FormState, s: bytes, q: FormState, x: byte, tail: bytes)
    requires Feed(st, s) == Some(q) && StepByte(q, x).Stop?
    ensures Run(st, s + ([x] + tail)) == StepByte(q, x).result
  {
    RunConcat(st, s, [x] + tail);
    RunUnfold(q, [x] + tail);
  }
}
