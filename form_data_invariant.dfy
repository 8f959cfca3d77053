/** What every form `Multipart.Parse` returns looks like, and when the
    parser panics.  Both follow from an invariant of the parser's state,
    kept by each byte. */
module MultipartInvariant {
  import opened Common
  import opened Text
  import opened FormDataFsm
  import opened Multipart
  import opened MultipartProofs

  /** The only forms the parser returns: a boundary line it accepts and
      exactly one part, whose data is not empty and does not start with a
      blank. */
  predicate WellFormedForm(f: FormData) {
    IsBoundary(f.boundary) && |f.parts| == 1
    && f.parts[0].data != [] && f.parts[0].data[0] != SP
  }

  /** The machine has read the first byte of the data. */
  predicate InData(m: State) {
    m == Data || m == DataToBoundary || m == EndDash1 || m == EndDash2
  }

  /** A dash, a partial boundary match, or the two closing dashes are
      under way. */
  predicate Matching(m: State) {
    m == DataToBoundary || m == EndDash1 || m == EndDash2
  }

  /** The boundary is the line read so far; the partial match is a prefix
      of it, empty outside the match; a part is stored only after the
      closing boundary. */
  predicate Inv(st: FormState) {
    var b := st.form.boundary;
    && st.machine != Cr3 && st.machine != Lf3
    && (st.machine == State.End <==> b == [])
    && (b != [] ==> b[0] == DASH)
    && (forall i | 0 <= i < |b| :: BoundaryByte(b[i]))
    && |st.like| <= |b| && st.like == b[..|st.like|]
    && (!Matching(st.machine) ==> st.like == [])
    && (InData(st.machine) ==> st.part.data != [] && st.part.data[0] != SP)
    && (!InData(st.machine) ==> st.part.data == [])
    && (st.machine == EndDash1 || st.machine == EndDash2 ==> st.like == b && st.form.parts == [st.part])
    && (st.machine != EndDash1 && st.machine != EndDash2 ==> st.form.parts == [])
  }

  lemma StartInv()
    ensures Inv(Start())
  {
  }

  /** What a step promises: the parse goes on from a state that keeps the
      invariant, or a returned form is well formed. */
  predicate StepOk(r: Step) {
    && (r.Next? ==> Inv(r.st))
    && (r.Stop? && r.result.Ok? && r.result.value.Some? ==> WellFormedForm(r.result.value.value))
  }

  /** A byte appended to the data keeps its first byte. */
  lemma DataInv(st: FormState, b: byte, i: Input, next: State)
    requires Inv(st) && Symbol(st, b) == Ok(i)
    requires Consume(st.machine, i) == Move(next, EffectAppendData)
    ensures StepOk(Effect(st.(machine := next), EffectAppendData, b))
  {
    if st.machine == Lf2 {
      assert i == PlainInput(b);
      FirstData(st.part.data, st.like, b);
    } else {
      DataKept(st.part.data, st.like, b);
    }
  }

  lemma FirstData(data: bytes, like: bytes, b: byte)
    requires data == [] && like == []
    ensures data + like + [b] == [b]
  {
  }

  lemma DataKept(data: bytes, like: bytes, b: byte)
    requires data != []
    ensures (data + like + [b])[0] == data[0]
  {
  }

  /** Each byte keeps the invariant. */
  lemma StepInv(st: FormState, b: byte)
    requires Inv(st)
    ensures StepOk(StepByte(st, b))
  {
    match Symbol(st, b)
    case Err(_) =>
    case Ok(i) =>
      match Consume(st.machine, i)
      case Rejected =>
      case Move(next, out) =>
        StepIsEffect(st, b, i, next, out);
        MoveInv(st, b, i, next, out);
  }

  lemma StepIsEffect(st: FormState, b: byte, i: Input, next: State, out: Output)
    requires Symbol(st, b) == Ok(i) && Consume(st.machine, i) == Move(next, out)
    ensures StepByte(st, b) == Effect(st.(machine := next), out, b)
  {
  }

  /** A transition of the table, with its output applied, keeps the
      invariant. */
  lemma MoveInv(st: FormState, b: byte, i: Input, next: State, out: Output)
    requires Inv(st) && Symbol(st, b) == Ok(i)
    requires Consume(st.machine, i) == Move(next, out)
    ensures StepOk(Effect(st.(machine := next), out, b))
  {
    Cr3Unreachable(st.machine, i);
    var q := st.(machine := next);
    match out {
      case Silent => SilentInv(st, i, next);
      case EffectAppendBoundary => BoundaryInv(st, b, i, next);
      case EffectAppendHeaderField => SilentInv(st, i, next); FieldsInv(q, q.headerField + [b], q.headerValue);
      case EffectAppendHeaderValue => SilentInv(st, i, next); FieldsInv(q, q.headerField, q.headerValue + [b]);
      case EffectAppendHeader => SilentInv(st, i, next); HeaderInv(q, b);
      case EffectAppendData => DataInv(st, b, i, next);
      case EffectAppendLikeBoundary => LikeInv(st, b, i, next);
      case EffectAppendPart => PartInv(st, b, i, next);
      case EffectFormData => FormInv(st, i, b);
    }
  }

  /** A transition that leaves the boundary, the partial match, the data
      and the parts alone keeps the invariant. */
  lemma SilentInv(st: FormState, i: Input, next: State)
    requires Inv(st) && i != Input.End && Consume(st.machine, i).Move? && Consume(st.machine, i).next == next
    requires Consume(st.machine, i).output in {Silent, EffectAppendHeaderField, EffectAppendHeaderValue, EffectAppendHeader}
    ensures Inv(st.(machine := next))
  {
    HeadOutputs(st.machine, i);
    HeadMove(st, next);
  }

  /** Only the boundary line and the header block have transitions without
      output or with a header output (the unreachable `Cr3` and `Lf3`
      aside). */
  lemma HeadOutputs(s: State, i: Input)
    requires s != Cr3 && s != Lf3 && i != Input.End && Consume(s, i).Move?
    requires Consume(s, i).output in {Silent, EffectAppendHeaderField, EffectAppendHeaderValue, EffectAppendHeader}
    ensures InHead(s) && InHead(Consume(s, i).next)
  {
  }

  /** The states from the boundary line to the empty line after the
      headers. */
  predicate InHead(m: State) {
    m == Boundary || m == Cr0 || m == Lf0 || m == HeaderField || m == State.Colon
    || m == State.Blank || m == HeaderValue || m == Cr1 || m == Lf1 || m == Cr2 || m == Lf2
  }

  /** Moving between those states keeps the invariant. */
  lemma HeadMove(st: FormState, next: State)
    requires Inv(st) && InHead(st.machine) && InHead(next)
    ensures Inv(st.(machine := next))
  {
  }

  /** The header accumulators are not part of the invariant. */
  lemma FieldsInv(q: FormState, f: bytes, v: bytes)
    requires Inv(q)
    ensures Inv(q.(headerField := f, headerValue := v))
  {
  }

  /** The second closing dash returns the one stored part. */
  lemma FormInv(st: FormState, i: Input, b: byte)
    requires Inv(st) && Consume(st.machine, i) == Move(EndDash2, EffectFormData)
    ensures StepOk(Effect(st.(machine := EndDash2), EffectFormData, b))
  {
    assert st.machine == EndDash1;
  }

  lemma BoundaryInv(st: FormState, b: byte, i: Input, next: State)
    requires Inv(st) && Symbol(st, b) == Ok(i)
    requires Consume(st.machine, i) == Move(next, EffectAppendBoundary)
    ensures StepOk(Effect(st.(machine := next), EffectAppendBoundary, b))
  {
    assert i == PlainInput(b);
    assert next == Boundary && st.like == [] && BoundaryByte(b);
    assert st.form.boundary == [] ==> b == DASH;
    BoundaryAppend(st.form.boundary, b);
  }

  lemma BoundaryAppend(bd: bytes, b: byte)
    requires forall i | 0 <= i < |bd| :: BoundaryByte(bd[i])
    requires BoundaryByte(b)
    ensures forall i | 0 <= i < |bd + [b]| :: BoundaryByte((bd + [b])[i])
    ensures (bd + [b])[0] == if bd == [] then b else bd[0]
  {
  }

  lemma LikeInv(st: FormState, b: byte, i: Input, next: State)
    requires Inv(st) && Symbol(st, b) == Ok(i)
    requires Consume(st.machine, i) == Move(next, EffectAppendLikeBoundary)
    ensures StepOk(Effect(st.(machine := next), EffectAppendLikeBoundary, b))
  {
    var bd := st.form.boundary;
    assert i == BoundaryLike;
    assert |st.like| < |bd| && bd[|st.like|] == b;
    assert st.like + [b] == bd[..|st.like| + 1];
  }

  lemma PartInv(st: FormState, b: byte, i: Input, next: State)
    requires Inv(st) && Symbol(st, b) == Ok(i)
    requires Consume(st.machine, i) == Move(next, EffectAppendPart)
    ensures StepOk(Effect(st.(machine := next), EffectAppendPart, b))
  {
  }

  lemma HeaderInv(q: FormState, b: byte)
    requires Inv(q) && q.machine == Cr1
    ensures StepOk(Effect(q, EffectAppendHeader, b))
  {
  }

  /** Whatever the bytes, a form the parser returns is well formed. */
  lemma {:induction false} RunInv(st: FormState, s: bytes)
    requires Inv(st)
    ensures Run(st, s).Ok? && Run(st, s).value.Some? ==> WellFormedForm(Run(st, s).value.value)
    decreases |s|
  {
    if s != [] {
      StepInv(st, s[0]);
      match StepByte(st, s[0]) {
        case Stop(_) =>
        case Next(q) => RunInv(q, s[1..]);
      }
    }
  }

  /** Every form `Parse` returns has a boundary line the parser accepts and
      exactly one part: a body with several parts is never returned. */
  lemma ParsedWellFormed(raw: bytes)
    ensures Run(Start(), raw).Ok? && Run(Start(), raw).value.Some? ==>
              WellFormedForm(Run(Start(), raw).value.value)
  {
    StartInv();
    RunInv(Start(), raw);
  }

  /** The index panic happens exactly when a complete boundary inside the
      data is followed by anything but a dash: the parser looks up the
      boundary byte after the last one. */
  lemma IndexPanic(st: FormState, b: byte)
    requires Inv(st)
    ensures StepByte(st, b) == Stop(Err(IndexOutOfBounds)) <==>
              st.machine == DataToBoundary && st.like == st.form.boundary && b != DASH
  {
    if st.machine == DataToBoundary && st.like == st.form.boundary && b != DASH {
      assert Symbol(st, b) == Err(IndexOutOfBounds);
    }
    if StepByte(st, b) == Stop(Err(IndexOutOfBounds)) {
      assert Symbol(st, b).Err?;
    }
  }
}
