/** The request-message state machine of `message/fsm.rs`: its states, its
    input alphabet, its outputs (the effects the driver interprets) and its
    transition table.  A pair the table does not list has no transition;
    the library reports that as an error. */
module MessageFsm {
  import opened Common

  datatype State =
    | End | Method | Blank0 | Path | Blank1 | Version | Cr0 | Lf0
    | HeaderField | Colon0 | Blank2 | HeaderValue | Cr1 | Lf1 | Cr2 | Lf2 | Body

  /** `End` is never read from the stream: the driver injects it. */
  datatype Input = Alpha | Blank | Colon | Cr | Lf | End

  /** The outputs of the table; `Silent` stands for a transition the table
      lists without an output. */
  datatype Output =
    | Silent
    | EffectAppendMethod | EffectAppendPath | EffectAppendVersion
    | EffectAppendHeaderField | EffectAppendHeaderValue | EffectAppendHeader
    | EffectCheckEnd | EffectAppendBody

  /** The answer of `StateMachine::consume`: the next state and the output,
      or no transition. */
  datatype Transition = Rejected | Move(next: State, output: Output)

  /** The machine's initial state. */
  const Initial: State := State.End

  /** The effects that extend one of the request-line or header-name
      accumulators. */
  predicate IsTokenEffect(o: Output) {
    o == EffectAppendMethod || o == EffectAppendPath
    || o == EffectAppendVersion || o == EffectAppendHeaderField
  }

  /** `StateMachine::consume`, row by row of the table. */
  function Consume(s: State, i: Input): (r: Transition)
    // the header block ends exactly on the Lf of the empty line
    ensures (r.Move? && r.output == EffectCheckEnd) <==> (s == Cr2 && i == Lf)
    ensures r.Move? && r.output == EffectCheckEnd ==> r.next == Lf2
    // body bytes are appended only in Lf2 and Body, on a real byte
    ensures r.Move? && r.output == EffectAppendBody ==>
              (s == Lf2 || s == Body) && i != Input.End && r.next == Body
    // End is accepted only where a body may end, and has no output
    ensures i == Input.End ==> (r.Move? <==> s == Lf2 || s == Body)
    ensures i == Input.End && r.Move? ==> r == Move(State.End, Silent)
  {
    match s
    case End => if i == Alpha then Move(State.Method, EffectAppendMethod) else Rejected
    case Method =>
      if i == Alpha then Move(State.Method, EffectAppendMethod)
      else if i == Blank then Move(Blank0, Silent)
      else Rejected
    case Blank0 => if i == Alpha then Move(Path, EffectAppendPath) else Rejected
    case Path =>
      if i == Alpha then Move(Path, EffectAppendPath)
      else if i == Blank then Move(Blank1, Silent)
      else Rejected
    case Blank1 => if i == Alpha then Move(Version, EffectAppendVersion) else Rejected
    case Version =>
      if i == Alpha then Move(Version, EffectAppendVersion)
      else if i == Cr then Move(Cr0, Silent)
      else Rejected
    case Cr0 => if i == Lf then Move(Lf0, Silent) else Rejected
    case Lf0 => if i == Alpha then Move(HeaderField, EffectAppendHeaderField) else Rejected
    case HeaderField =>
      if i == Alpha then Move(HeaderField, EffectAppendHeaderField)
      else if i == Colon then Move(Colon0, Silent)
      else Rejected
    case Colon0 => if i == Blank then Move(Blank2, Silent) else Rejected
    case Blank2 => if i == Alpha then Move(HeaderValue, EffectAppendHeaderValue) else Rejected
    case HeaderValue =>
      if i == Alpha || i == Blank || i == Colon then Move(HeaderValue, EffectAppendHeaderValue)
      else if i == Cr then Move(Cr1, EffectAppendHeader)
      else Rejected
    case Cr1 => if i == Lf then Move(Lf1, Silent) else Rejected
    case Lf1 =>
      if i == Alpha then Move(HeaderField, EffectAppendHeaderField)
      else if i == Cr then Move(Cr2, Silent)
      else Rejected
    case Cr2 => if i == Lf then Move(Lf2, EffectCheckEnd) else Rejected
    case Lf2 =>
      if i == Alpha then Move(Body, EffectAppendBody)
      else if i == Input.End then Move(State.End, Silent)
      else Rejected
    case Body => if i == Input.End then Move(State.End, Silent) else Move(Body, EffectAppendBody)
  }

  /** The shape of the table: what each state accepts and which inputs
      feed which accumulator. */
  lemma TableShape(s: State, i: Input)
    ensures var r := Consume(s, i);
      // only Alpha leaves the initial state, starting the method
      && (s == State.End ==> (r.Move? <==> i == Alpha))
      && (s == State.End && r.Move? ==> r == Move(State.Method, EffectAppendMethod))
      // the request-line and header-name accumulators only ever grow on Alpha
      && (r.Move? && IsTokenEffect(r.output) ==> i == Alpha)
      // header values grow on Alpha, Blank and Colon, never on Cr, Lf or End
      && (r.Move? && r.output == EffectAppendHeaderValue ==> i == Alpha || i == Blank || i == Colon)
      // a header is committed exactly on the Cr that ends its value
      && ((r.Move? && r.output == EffectAppendHeader) <==> (s == HeaderValue && i == Cr))
      // the request line must be followed by a header: Lf0 takes only Alpha
      && (s == Lf0 ==> (r.Move? <==> i == Alpha))
      // exactly one Blank after the colon, then the value starts with Alpha
      && (s == Colon0 ==> (r.Move? <==> i == Blank))
      && (s == Blank2 ==> (r.Move? <==> i == Alpha))
      // the first body byte must be Alpha
      && (s == Lf2 ==> (r.Move? <==> i == Alpha || i == Input.End))
      // the body takes every symbol
      && (s == Body ==> r.Move?)
      && (s == Body && i != Input.End ==> r == Move(Body, EffectAppendBody))
  {
  }
}
