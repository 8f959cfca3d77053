/** Multipart form data (`form_data/mod.rs`): the parts of a form, the
    lookup of a part by name, and the byte-at-a-time parser driven by the
    machine of `FormDataFsm`.

    The parser's boundary is the whole first line of the body, leading
    dashes included.  Inside the data it matches the boundary naively: a
    byte that breaks a partial match turns the partial match, and that
    byte, back into data.  Where the source panics (an index or a slice out
    of bounds) the model returns `Err` with `IndexOutOfBounds` or
    `SliceOutOfBounds`. */
module Multipart {
  import opened Common
  import opened Text
  import opened FormDataFsm

  const CONTENT_DISPOSITION: bytes :=
    [67, 111, 110, 116, 101, 110, 116, 45, 68, 105, 115, 112, 111, 115, 105, 116, 105, 111, 110]  // Content-Disposition
  const CONTENT_TYPE: bytes := [67, 111, 110, 116, 101, 110, 116, 45, 84, 121, 112, 101]  // Content-Type
  const NAME: bytes := [110, 97, 109, 101]  // name
  const FILENAME: bytes := [102, 105, 108, 101, 110, 97, 109, 101]  // filename
  /** `; `, between the items of a `Content-Disposition` value. */
  const ITEM_SEPARATOR: bytes := [SEMICOLON, SP]
  /** `=`, between a parameter's name and its value. */
  const PARAMETER_SEPARATOR: bytes := [EQUALS]

  /** One part of a form.  Names, file names and content types are UTF-8
      text, kept as their bytes. */
  datatype FormDataPart = FormDataPart(
    name: Option<bytes>, filename: Option<bytes>, contentType: Option<bytes>, data: bytes)

  /** `FormDataPart::new`. */
  function NewPart(): (p: FormDataPart)
    ensures p.name.None? && p.filename.None? && p.contentType.None? && p.data == []
  {
    FormDataPart(None, None, None, [])
  }

  datatype FormData = FormData(boundary: bytes, parts: seq<FormDataPart>)
  {
    /** `get_part`: the first part whose name is `name`. */
    method GetPart(name: bytes) returns (r: Option<FormDataPart>)
      ensures r.Some? ==> exists i | 0 <= i < |parts| :: parts[i] == r.value && FirstNamed(name, i)
      ensures r.None? <==> forall i | 0 <= i < |parts| :: parts[i].name != Some(name)
    {
      for i := 0 to |parts|
        invariant forall j | 0 <= j < i :: parts[j].name != Some(name)
      {
        var part := parts[i];
        if part.name.Some? && part.name.value == name {
          assert FirstNamed(name, i);
          return Some(part);
        }
      }
      return None;
    }

    /** Part `i` is named `name` and no earlier part is. */
    predicate FirstNamed(name: bytes, i: nat) {
      i < |parts| && parts[i].name == Some(name)
      && forall j | 0 <= j < i :: parts[j].name != Some(name)
    }

    /** At most one part is the first with a given name, so `GetPart`'s
        answer is determined. */
    lemma FirstNamedUnique(name: bytes, i: nat, j: nat)
      requires FirstNamed(name, i) && FirstNamed(name, j)
      ensures i == j
    {
    }
  }

  /** `FormData::new`. */
  function EmptyForm(): (f: FormData)
    ensures f.boundary == [] && f.parts == []
  {
    FormData([], [])
  }

  // -----------------------------------------------------------------------
  // Headers of a part

  /** The `key=value` pairs of a `Content-Disposition` value: the items
      between `; `, each cut at its first `=`. */
  function Pairs(value: bytes): (r: seq<seq<bytes>>)
    ensures forall k | 0 <= k < |r| :: 1 <= |r[k]| <= 2
  {
    var items := Split(value, ITEM_SEPARATOR);
    seq(|items|, k requires 0 <= k < |items| => SplitOnce(items[k], PARAMETER_SEPARATOR))
  }

  /** The loop over the pairs of a `Content-Disposition` value: `name` and
      `filename` take their value without its first and last byte (the
      quotes); other pairs and lone items are skipped. */
  function Disposition(part: FormDataPart, pairs: seq<seq<bytes>>): (r: Result<FormDataPart>)
    ensures r.Ok? ==> r.value.contentType == part.contentType && r.value.data == part.data
    ensures r.Err? ==> r.error == SliceOutOfBounds
    decreases |pairs|
  {
    if pairs == [] then Ok(part)
    else
      var pair := pairs[0];
      if |pair| >= 2 && pair[0] == NAME then
        (match StripEnds(pair[1])
         case Err(e) => Err(e)
         case Ok(v) => Disposition(part.(name := Some(v)), pairs[1..]))
      else if |pair| >= 2 && pair[0] == FILENAME then
        (match StripEnds(pair[1])
         case Err(e) => Err(e)
         case Ok(v) => Disposition(part.(filename := Some(v)), pairs[1..]))
      else Disposition(part, pairs[1..])
  }

  /** `EffectAppendHeader`: the header name must be UTF-8; a
      `Content-Disposition` value (which must be UTF-8) sets the name and
      file name, a `Content-Type` value (which must be UTF-8) is the
      content type, and any other header is ignored. */
  function ApplyHeader(part: FormDataPart, field: bytes, value: bytes): (r: Result<FormDataPart>)
    ensures r.Ok? ==> r.value.data == part.data
    ensures r.Err? ==> r.error == InvalidUtf8 || r.error == SliceOutOfBounds
    ensures !ValidUtf8(field) ==> r == Err(InvalidUtf8)
    ensures ValidUtf8(field) && field == CONTENT_DISPOSITION && !ValidUtf8(value) ==> r == Err(InvalidUtf8)
    ensures ValidUtf8(field) && field != CONTENT_DISPOSITION && field != CONTENT_TYPE ==> r == Ok(part)
    ensures ValidUtf8(field) && field == CONTENT_TYPE ==>
              r == if ValidUtf8(value) then Ok(part.(contentType := Some(value))) else Err(InvalidUtf8)
    ensures field == CONTENT_DISPOSITION && r.Ok? ==> r.value.contentType == part.contentType
  {
    if !ValidUtf8(field) then Err(InvalidUtf8)
    else if field == CONTENT_DISPOSITION then
      if !ValidUtf8(value) then Err(InvalidUtf8) else Disposition(part, Pairs(value))
    else if field == CONTENT_TYPE then
      if !ValidUtf8(value) then Err(InvalidUtf8) else Ok(part.(contentType := Some(value)))
    else Ok(part)
  }

  /** The `for pair in pairs` loop of `EffectAppendHeader`. */
  method ApplyPairs(part: FormDataPart, pairs: seq<seq<bytes>>) returns (r: Result<FormDataPart>)
    ensures r == Disposition(part, pairs)
  {
    var current := part;
    for k := 0 to |pairs|
      invariant Disposition(part, pairs) == Disposition(current, pairs[k..])
    {
      var pair := pairs[k];
      assert pairs[k..][1..] == pairs[k + 1..];
      if |pair| >= 2 && pair[0] == NAME {
        var v := StripEnds(pair[1]);
        if v.Err? { return Err(v.error); }
        current := current.(name := Some(v.value));
      } else if |pair| >= 2 && pair[0] == FILENAME {
        var v := StripEnds(pair[1]);
        if v.Err? { return Err(v.error); }
        current := current.(filename := Some(v.value));
      }
    }
    return Ok(current);
  }

  // -----------------------------------------------------------------------
  // The parser, as a function of its state and the bytes it reads

  /** The locals of `FormData::parse`: the machine, the form and the part
      being built, the header being read and the partial boundary match
      (`boundary_like`). */
  datatype FormState = FormState(
    machine: State, form: FormData, part: FormDataPart,
    headerField: bytes, headerValue: bytes, like: bytes)

  /** The state before the first byte. */
  function Start(): FormState {
    FormState(Initial, EmptyForm(), NewPart(), [], [], [])
  }

  /** The input a byte stands for on its own. */
  function PlainInput(b: byte): (i: Input)
    ensures IsPlain(i)
    ensures i == Input.Blank <==> b == SP
    ensures i == Dash <==> b == DASH
  {
    if b == DASH then Dash
    else if b == CR then Cr
    else if b == LF then Lf
    else if b == COLON then Input.Colon
    else if b == SP then Input.Blank
    else Alpha
  }

  /** The input fed to the machine for byte `b`.  A dash after a complete
      boundary is `EndDash`; in the data, a byte that continues the partial
      boundary match is `BoundaryLike`.  Looking up the next boundary byte
      after a complete match panics. */
  function Symbol(st: FormState, b: byte): (r: Result<Input>)
    ensures r.Err? <==>
      (st.machine == Data || st.machine == DataToBoundary)
      && !(b == DASH && st.like == st.form.boundary)
      && |st.like| >= |st.form.boundary|
    ensures r.Err? ==> r.error == IndexOutOfBounds
    ensures r.Ok? ==> r.value != Input.End
    ensures r.Ok? && r.value == EndDash <==>
      b == DASH && st.machine != Boundary && st.machine != State.End && st.like == st.form.boundary
  {
    if b == DASH && st.machine != Boundary && st.machine != State.End && st.like == st.form.boundary then
      Ok(EndDash)
    else if st.machine == Data || st.machine == DataToBoundary then
      if |st.like| >= |st.form.boundary| then Err(IndexOutOfBounds)
      else if st.form.boundary[|st.like|] == b then Ok(BoundaryLike)
      else Ok(PlainInput(b))
    else Ok(PlainInput(b))
  }

  /** What one byte does: the parse goes on, or returns. */
  datatype Step = Next(st: FormState) | Stop(result: Result<Option<FormData>>)

  /** The end of a header line: an error from applying the header stops
      the parse, otherwise the part is updated and the buffers cleared. */
  function Commit(q: FormState, r: Result<FormDataPart>): Step {
    match r
    case Err(e) => Stop(Err(e))
    case Ok(p) => Next(q.(part := p, headerField := [], headerValue := []))
  }

  /** What an output does to the locals; `q` already holds the machine's
      new state. */
  function Effect(q: FormState, out: Output, b: byte): Step {
    match out
    case Silent => Next(q)
    case EffectAppendBoundary => Next(q.(form := q.form.(boundary := q.form.boundary + [b])))
    case EffectAppendData => Next(q.(part := q.part.(data := q.part.data + q.like + [b]), like := []))
    case EffectAppendHeader => Commit(q, ApplyHeader(q.part, q.headerField, q.headerValue))
    case EffectAppendHeaderField => Next(q.(headerField := q.headerField + [b]))
    case EffectAppendHeaderValue => Next(q.(headerValue := q.headerValue + [b]))
    case EffectAppendLikeBoundary => Next(q.(like := q.like + [b]))
    case EffectAppendPart => Next(q.(form := q.form.(parts := q.form.parts + [q.part])))
    case EffectFormData => Stop(Ok(Some(q.form)))
  }

  /** One iteration of the loop of `FormData::parse`. */
  function StepByte(st: FormState, b: byte): Step {
    match Symbol(st, b)
    case Err(e) => Stop(Err(e))
    case Ok(i) =>
      match Consume(st.machine, i)
      case Rejected => Stop(Err(TransitionImpossible))
      case Move(next, out) => Effect(st.(machine := next), out, b)
  }

  /** `parse` from state `st` on the bytes `s` still to be read; the end
      of the input gives `Ok(None)`. */
  function Run(st: FormState, s: bytes): Result<Option<FormData>>
    decreases |s|
  {
    if s == [] then Ok(None)
    else
      match StepByte(st, s[0])
      case Stop(r) => r
      case Next(q) => Run(q, s[1..])
  }

  /** The state after reading all of `s` without the parse returning. */
  function Feed(st: FormState, s: bytes): Option<FormState>
    decreases |s|
  {
    if s == [] then Some(st)
    else
      match StepByte(st, s[0])
      case Stop(_) => None
      case Next(q) => Feed(q, s[1..])
  }

  /** One byte of `Run`. */
  lemma RunUnfold(st: FormState, s: bytes)
    requires s != []
    ensures StepByte(st, s[0]).Stop? ==> Run(st, s) == StepByte(st, s[0]).result
    ensures StepByte(st, s[0]).Next? ==> Run(st, s) == Run(StepByte(st, s[0]).st, s[1..])
  {
  }

  /** `FormData::parse`. */
  method Parse(raw: bytes) returns (r: Result<Option<FormData>>)
    ensures r == Run(Start(), raw)
  {
    var st := Start();
    for i := 0 to |raw|
      invariant Run(st, raw[i..]) == Run(Start(), raw)
    {
      var byte := raw[i];
      RunUnfold(st, raw[i..]);
      assert raw[i..][0] == byte && raw[i..][1..] == raw[i + 1..];
      ghost var step := StepByte(st, byte);
      var input: Input;
      if byte == DASH && st.machine != Boundary && st.machine != State.End && st.like == st.form.boundary {
        input := EndDash;
      } else if st.machine == Data || st.machine == DataToBoundary {
        if |st.like| >= |st.form.boundary| {
          return Err(IndexOutOfBounds);
        }
        input := if st.form.boundary[|st.like|] == byte then BoundaryLike else PlainInput(byte);
      } else {
        input := PlainInput(byte);
      }
      var effect := Consume(st.machine, input);
      if effect.Rejected? {
        return Err(TransitionImpossible);
      }
      st := st.(machine := effect.next);
      assert step == Effect(st, effect.output, byte);
      var done;
      st, done := ApplyOutput(st, effect.output, byte);
      if done.Some? {
        return done.value;
      }
    }
    assert raw[|raw|..] == [];
    return Ok(None);
  }

  /** The `match effect` of `FormData::parse` for one output. */
  method ApplyOutput(st: FormState, out: Output, byte: byte)
    returns (next: FormState, done: Option<Result<Option<FormData>>>)
    ensures done.None? ==> Effect(st, out, byte) == Next(next)
    ensures done.Some? ==> Effect(st, out, byte) == Stop(done.value)
  {
    next := st;
    done := None;
    match out {
      case Silent =>
      case EffectAppendBoundary =>
        next := next.(form := next.form.(boundary := next.form.boundary + [byte]));
      case EffectAppendData =>
        next := next.(part := next.part.(data := next.part.data + next.like + [byte]), like := []);
      case EffectAppendHeader =>
        var part := ApplyHeaderBytes(next.part, next.headerField, next.headerValue);
        if part.Err? {
          done := Some(Err(part.error));
        } else {
          next := next.(part := part.value, headerField := [], headerValue := []);
        }
      case EffectAppendHeaderField =>
        next := next.(headerField := next.headerField + [byte]);
      case EffectAppendHeaderValue =>
        next := next.(headerValue := next.headerValue + [byte]);
      case EffectAppendLikeBoundary =>
        next := next.(like := next.like + [byte]);
      case EffectAppendPart =>
        next := next.(form := next.form.(parts := next.form.parts + [next.part]));
      case EffectFormData =>
        done := Some(Ok(Some(next.form)));
    }
  }

  /** `EffectAppendHeader` as the source runs it, with the loop over the
      disposition pairs. */
  method ApplyHeaderBytes(part: FormDataPart, field: bytes, value: bytes) returns (r: Result<FormDataPart>)
    ensures r == ApplyHeader(part, field, value)
  {
    if !ValidUtf8(field) {
      return Err(InvalidUtf8);
    }
    if field == CONTENT_DISPOSITION {
      if !ValidUtf8(value) {
        return Err(InvalidUtf8);
      }
      r := ApplyPairs(part, Pairs(value));
    } else if field == CONTENT_TYPE {
      if !ValidUtf8(value) {
        return Err(InvalidUtf8);
      }
      r := Ok(part.(contentType := Some(value)));
    } else {
      r := Ok(part);
    }
  }
}
