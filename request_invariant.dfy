/** What every request `Parser.Parse` returns looks like: the converse of
    `RequestProofs.ParseWellFormed`.  The proof is an invariant of the
    parser's state, kept by each byte. */
module RequestInvariant {
  import opened Common
  import opened Text
  import opened MessageFsm
  import opened Message
  import opened RequestProofs

  /** Every stored header has a token as its name and a value the parser
      accepts. */
  predicate HeadersOk(h: map<bytes, bytes>) {
    forall k | k in h :: IsToken(k) && IsValue(h[k])
  }

  /** A request as the parser can produce it: three tokens on the request
      line, at least one header, and exactly the announced number of body
      bytes, the first of them an `Alpha` byte. */
  predicate WellFormedRequest(r: Request) {
    && IsToken(r.verb) && IsToken(r.path) && IsToken(r.version)
    && |r.headers| > 0 && HeadersOk(r.headers)
    && |r.body| == ContentLength(r.headers)
    && (r.body != [] ==> Classify(r.body[0]) == Alpha)
  }

  /** The position of a state along the request: the order in which the
      table first reaches them. */
  function Stage(m: State): (r: nat)
    ensures r < 17
  {
    match m
    case End => 0 case Method => 1 case Blank0 => 2 case Path => 3 case Blank1 => 4
    case Version => 5 case Cr0 => 6 case Lf0 => 7 case HeaderField => 8 case Colon0 => 9
    case Blank2 => 10 case HeaderValue => 11 case Cr1 => 12 case Lf1 => 13 case Cr2 => 14
    case Lf2 => 15 case Body => 16
  }

  /** A request is under way: the machine has left `End` and is not about
      to take `End` after a complete body. */
  predicate Active(ps: ParseState) {
    ps.machine != State.End && !((ps.machine == Lf2 || ps.machine == Body) && ps.rest == 0)
  }

  /** The accumulators hold what the bytes read so far allow. */
  predicate Inv(ps: ParseState) {
    && AlphaOnly(ps.verb) && AlphaOnly(ps.path) && AlphaOnly(ps.version)
    && AlphaOnly(ps.headerField)
    && (ps.headerValue == [] || IsValue(ps.headerValue))
    && HeadersOk(ps.headers)
    && (Active(ps) ==> |ps.verb| > 0)
    && (Active(ps) && Stage(ps.machine) >= 3 ==> |ps.path| > 0)
    && (Active(ps) && Stage(ps.machine) >= 5 ==> |ps.version| > 0)
    && (8 <= Stage(ps.machine) <= 11 ==> |ps.headerField| > 0)
    && (ps.machine == HeaderValue ==> |ps.headerValue| > 0)
    && (Active(ps) && Stage(ps.machine) >= 12 ==> |ps.headers| > 0)
    && (ps.rest == 0 ==> ps.body == [])
    && (Stage(ps.machine) < 15 ==> ps.rest == 0)
    && (Stage(ps.machine) >= 15 ==> |ps.body| + ps.rest == ContentLength(ps.headers))
    && (ps.machine == Lf2 ==> ps.body == [])
    && (ps.body != [] ==> Classify(ps.body[0]) == Alpha)
    && (ps.machine == Body && ps.rest > 0 ==> ps.body != [])
  }

  /** A call starts with empty accumulators, so the invariant holds at the
      start of a call in every state a finished call leaves the machine
      in. */
  lemma FreshInv(m: State)
    requires m == Initial || m == Lf2 || m == Body
    ensures Inv(Fresh(m))
  {
  }

  /** What a finished step promises: the parse goes on from a state that
      keeps the invariant, or a returned request is well formed. */
  predicate StepOk(r: Step) {
    && (r.Next? ==> Inv(r.ps))
    && (r.Stop? && r.result.Ok? && r.result.value.Some? ==> WellFormedRequest(r.result.value.value))
  }

  /** Every byte keeps the invariant, and a request it completes is well
      formed. */
  lemma StepInv(ps: ParseState, b: byte)
    requires Inv(ps)
    ensures StepOk(StepByte(ps, b))
  {
    var i := Symbol(ps, b);
    var t := Consume(ps.machine, i);
    TableShape(ps.machine, i);
    if t.Move? {
      var q := ps.(machine := t.next);
      assert StepByte(ps, b) == Effect(q, t.output, b);
      match t.output {
        case Silent => SilentInv(ps, i, t.next);
        case EffectAppendMethod => TokenInv(ps, b, t.next, t.output);
        case EffectAppendPath => TokenInv(ps, b, t.next, t.output);
        case EffectAppendVersion => TokenInv(ps, b, t.next, t.output);
        case EffectAppendHeaderField => TokenInv(ps, b, t.next, t.output);
        case EffectAppendHeaderValue => ValueInv(ps, b, i, t.next);
        case EffectAppendHeader => HeaderInv(ps, i, t.next);
        case EffectCheckEnd => CheckEndInv(ps);
        case EffectAppendBody => BodyInv(ps, b, i);
      }
    }
  }

  lemma SilentInv(ps: ParseState, i: Input, next: State)
    requires Inv(ps) && Consume(ps.machine, i) == Move(next, Silent)
    requires i == Input.End ==> ps.rest == 0
    ensures Inv(ps.(machine := next))
  {
    if i == Input.End {
      assert ps.machine == Lf2 || ps.machine == Body;
    } else {
      SilentTargets(ps.machine, i);
      LineMove(ps, next);
    }
  }

  /** A state a transition without output leads to from a real byte: a
      blank, a line break or the colon between the tokens. */
  predicate Separator(m: State) {
    m == Blank0 || m == Blank1 || m == Cr0 || m == Lf0 || m == Colon0 || m == Blank2 || m == Lf1 || m == Cr2
  }

  /** On a real byte, the transitions without output move one stage on,
      into a separator. */
  lemma SilentTargets(s: State, i: Input)
    requires i != Input.End && Consume(s, i).Move? && Consume(s, i).output == Silent
    ensures Separator(Consume(s, i).next) && Stage(Consume(s, i).next) == Stage(s) + 1
  {
  }

  /** Moving one stage on into a separator keeps the invariant. */
  lemma LineMove(ps: ParseState, next: State)
    requires Inv(ps) && Separator(next) && Stage(next) == Stage(ps.machine) + 1
    ensures Inv(ps.(machine := next))
  {
    var k := Stage(next);
    assert k in {2, 4, 6, 7, 9, 10, 13, 14};
    assert Active(ps) && Active(ps.(machine := next));
  }

  lemma TokenInv(ps: ParseState, b: byte, next: State, out: Output)
    requires Inv(ps) && Classify(b) == Alpha && IsTokenEffect(out)
    requires Consume(ps.machine, Alpha) == Move(next, out)
    ensures StepOk(Effect(ps.(machine := next), out, b))
  {
    TokenTargets(ps.machine, out);
  }

  /** Where each token effect happens: the state it leaves and the one it
      reaches. */
  lemma TokenTargets(s: State, out: Output)
    requires IsTokenEffect(out) && Consume(s, Alpha).Move? && Consume(s, Alpha).output == out
    ensures var next := Consume(s, Alpha).next;
      && (out == EffectAppendMethod ==> (s == State.End || s == State.Method) && next == State.Method)
      && (out == EffectAppendPath ==> (s == Blank0 || s == Path) && next == Path)
      && (out == EffectAppendVersion ==> (s == Blank1 || s == Version) && next == Version)
      && (out == EffectAppendHeaderField ==> (s == Lf0 || s == Lf1 || s == HeaderField) && next == HeaderField)
  {
  }

  lemma ValueInv(ps: ParseState, b: byte, i: Input, next: State)
    requires Inv(ps) && i == Classify(b)
    requires Consume(ps.machine, i) == Move(next, EffectAppendHeaderValue)
    ensures StepOk(Effect(ps.(machine := next), EffectAppendHeaderValue, b))
  {
  }

  lemma HeaderInv(ps: ParseState, i: Input, next: State)
    requires Inv(ps)
    requires Consume(ps.machine, i) == Move(next, EffectAppendHeader)
    ensures forall b :: StepOk(Effect(ps.(machine := next), EffectAppendHeader, b))
  {
    HeaderTransition(ps.machine, i);
    HeadersAdd(ps.headers, ps.headerField, ps.headerValue);
  }

  /** Only the Cr that ends a value commits a header. */
  lemma HeaderTransition(s: State, i: Input)
    requires Consume(s, i).Move? && Consume(s, i).output == EffectAppendHeader
    ensures s == HeaderValue && Consume(s, i).next == Cr1
  {
  }

  lemma HeadersAdd(h: map<bytes, bytes>, k: bytes, v: bytes)
    requires HeadersOk(h) && IsToken(k) && IsValue(v)
    ensures HeadersOk(h[k := v]) && |h[k := v]| > 0
  {
    assert k in h[k := v];
  }

  lemma CheckEndInv(ps: ParseState)
    requires Inv(ps) && ps.machine == Cr2
    ensures forall b :: StepOk(Effect(ps.(machine := Lf2), EffectCheckEnd, b))
  {
  }

  lemma BodyInv(ps: ParseState, b: byte, i: Input)
    requires Inv(ps) && i == Classify(b)
    requires ps.machine == Lf2 || ps.machine == Body
    requires ps.rest > 0
    requires Consume(ps.machine, i) == Move(Body, EffectAppendBody)
    ensures StepOk(Effect(ps.(machine := Body), EffectAppendBody, b))
  {
    BodyFirst(ps, b, i);
    var q0 := ps.(machine := Body);
    var q := q0.(body := q0.body + [b], rest := q0.rest - 1);
    assert Effect(q0, EffectAppendBody, b) == Complete(q);
    if ps.rest == 1 {
      BodyDone(ps, q);
    } else {
      BodyMore(ps, q);
    }
  }

  /** The body with the new byte still starts with an `Alpha` byte. */
  lemma BodyFirst(ps: ParseState, b: byte, i: Input)
    requires Inv(ps) && i == Classify(b)
    requires ps.machine == Lf2 || ps.machine == Body
    requires ps.rest > 0
    requires Consume(ps.machine, i) == Move(Body, EffectAppendBody)
    ensures |ps.body + [b]| == |ps.body| + 1 && Classify((ps.body + [b])[0]) == Alpha
  {
    if ps.machine == Lf2 { LfBody(i); }
    FirstBodyByte(ps.body, b);
  }

  /** The first body byte must be `Alpha`. */
  lemma LfBody(i: Input)
    requires Consume(Lf2, i) == Move(Body, EffectAppendBody)
    ensures i == Alpha
  {
  }

  lemma FirstBodyByte(body: bytes, b: byte)
    ensures |body + [b]| == |body| + 1
    ensures (body + [b])[0] == if body == [] then b else body[0]
  {
  }

  /** The last announced body byte completes a well-formed request. */
  lemma BodyDone(ps: ParseState, q: ParseState)
    requires Inv(ps) && (ps.machine == Lf2 || ps.machine == Body) && ps.rest == 1
    requires q.verb == ps.verb && q.path == ps.path && q.version == ps.version && q.headers == ps.headers
    requires |q.body| == |ps.body| + 1 && q.body != [] && Classify(q.body[0]) == Alpha
    ensures WellFormedRequest(Request(q.verb, q.path, q.version, q.headers, q.body))
    ensures q.machine == Body && q.rest == 0 ==> StepOk(Complete(q))
  {
    assert Active(ps);
  }

  /** A body byte with more to come keeps the invariant. */
  lemma BodyMore(ps: ParseState, q: ParseState)
    requires Inv(ps) && (ps.machine == Lf2 || ps.machine == Body) && ps.rest > 1
    requires q == ps.(machine := Body, body := q.body, rest := ps.rest - 1)
    requires |q.body| == |ps.body| + 1 && q.body != [] && Classify(q.body[0]) == Alpha
    ensures Inv(q) && StepOk(Complete(q))
  {
  }

  /** From a state that keeps the invariant, every request a call returns
      is well formed. */
  lemma {:induction false} RunInv(ps: ParseState, s: bytes)
    requires Inv(ps)
    ensures var h := Run(ps, s);
      h.result.Ok? && h.result.value.Some? ==> WellFormedRequest(h.result.value.value)
    decreases |s|
  {
    if s != [] {
      StepInv(ps, s[0]);
      if StepByte(ps, s[0]).Next? {
        RunInv(StepByte(ps, s[0]).ps, s[1..]);
      }
    }
  }

  /** Soundness of the parser: a call on a machine in its initial state
      (a new parser, or one whose last call returned a request) returns
      only well-formed requests, whatever the bytes. */
  lemma ParsedWellFormed(s: bytes)
    ensures var h := Run(Fresh(Initial), s);
      h.result.Ok? && h.result.value.Some? ==> WellFormedRequest(h.result.value.value)
  {
    FreshInv(Initial);
    RunInv(Fresh(Initial), s);
  }
}
