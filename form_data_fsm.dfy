/** The multipart form-data state machine of `form_data/fsm.rs`: its states,
    inputs, outputs and transition table.  `DataToBoundary` lists `Cr`
    twice; the first entry (back to `Data`) is the one that applies, so the
    `Cr3`/`Lf3` states are never reached. */
module FormDataFsm {
  import opened Common

  datatype State =
    | End | Boundary | Cr0 | Lf0 | HeaderField | Colon | Blank | HeaderValue
    | Cr1 | Lf1 | Cr2 | Lf2 | Data | DataToBoundary | Cr3 | Lf3 | EndDash1 | EndDash2

  /** `BoundaryLike`, `EndDash` and `End` are decided by the driver from
      the parse so far, not by the byte alone. */
  datatype Input =
    | Alpha | Dash | Colon | Blank | Cr | Lf | BoundaryLike | EndDash | End

  /** `Silent` stands for a transition the table lists without output. */
  datatype Output =
    | Silent
    | EffectAppendBoundary | EffectAppendHeaderField | EffectAppendHeaderValue
    | EffectAppendHeader | EffectAppendData | EffectAppendLikeBoundary
    | EffectAppendPart | EffectFormData

  datatype Transition = Rejected | Move(next: State, output: Output)

  const Initial: State := State.End

  /** The inputs a plain byte can stand for. */
  predicate IsPlain(i: Input) {
    i == Alpha || i == Dash || i == Input.Colon || i == Input.Blank || i == Cr || i == Lf
  }

  /** `StateMachine::consume`, row by row of the table. */
  function Consume(s: State, i: Input): (r: Transition)
    // the form is complete only on the second dash after a boundary
    ensures (r.Move? && r.output == EffectFormData) <==> (s == EndDash1 && i == EndDash)
    ensures r.Move? && r.output == EffectFormData ==> r.next == EndDash2
    // a part is stored only when a full boundary is followed by a dash
    ensures (r.Move? && r.output == EffectAppendPart) <==> (s == DataToBoundary && i == EndDash)
    ensures r.Move? && r.output == EffectAppendPart ==> r.next == EndDash1
    // only EndDash2 takes End, and goes back to the start
    ensures i == Input.End ==> (r.Move? <==> s == EndDash2)
    ensures i == Input.End && r.Move? ==> r == Move(State.End, Silent)
  {
    match s
    case End => if i == Dash then Move(Boundary, EffectAppendBoundary) else Rejected
    case Boundary =>
      if i == Alpha || i == Dash || i == Input.Colon then Move(Boundary, EffectAppendBoundary)
      else if i == Cr then Move(Cr0, Silent)
      else Rejected
    case Cr0 => if i == Lf then Move(Lf0, Silent) else Rejected
    case Lf0 => if i == Alpha then Move(HeaderField, EffectAppendHeaderField) else Rejected
    case HeaderField =>
      if i == Alpha || i == Dash then Move(HeaderField, EffectAppendHeaderField)
      else if i == Input.Colon then Move(State.Colon, Silent)
      else Rejected
    case Colon => if i == Input.Blank then Move(State.Blank, Silent) else Rejected
    case Blank =>
      if i == Alpha || i == Dash || i == Input.Colon then Move(HeaderValue, EffectAppendHeaderValue)
      else Rejected
    case HeaderValue =>
      if i == Alpha || i == Dash || i == Input.Colon || i == Input.Blank then
        Move(HeaderValue, EffectAppendHeaderValue)
      else if i == Cr then Move(Cr1, EffectAppendHeader)
      else Rejected
    case Cr1 => if i == Lf then Move(Lf1, Silent) else Rejected
    case Lf1 =>
      if i == Cr then Move(Cr2, Silent)
      else if i == Alpha then Move(HeaderField, EffectAppendHeaderField)
      else Rejected
    case Cr2 => if i == Lf then Move(Lf2, Silent) else Rejected
    case Lf2 =>
      if i == Alpha || i == Dash || i == Input.Colon || i == Cr || i == Lf then
        Move(Data, EffectAppendData)
      else if i == BoundaryLike then Move(DataToBoundary, EffectAppendLikeBoundary)
      else Rejected
    case Data =>
      if IsPlain(i) then Move(Data, EffectAppendData)
      else if i == BoundaryLike then Move(DataToBoundary, EffectAppendLikeBoundary)
      else Rejected
    case DataToBoundary =>
      if i == BoundaryLike then Move(DataToBoundary, EffectAppendLikeBoundary)
      else if IsPlain(i) then Move(Data, EffectAppendData)
      else if i == EndDash then Move(EndDash1, EffectAppendPart)
      else Rejected
    case Cr3 => if i == Lf then Move(Lf3, Silent) else Rejected
    case Lf3 => if i == Alpha then Move(HeaderField, EffectAppendHeaderField) else Rejected
    case EndDash1 => if i == EndDash then Move(EndDash2, EffectFormData) else Rejected
    case EndDash2 => if i == Input.End then Move(State.End, Silent) else Rejected
  }

  /** The shape of the boundary-line and header part of the table. */
  lemma TableShape(s: State, i: Input)
    ensures var r := Consume(s, i);
      // a form starts with a dash, and the boundary line takes no blank
      && (s == State.End ==> (r.Move? <==> i == Dash))
      && (s == Boundary ==> (r.Move? <==> i != Input.Blank && i != Lf && IsPlain(i)))
      // a header name starts with Alpha; it may contain dashes but no colon
      && (s == Lf0 || s == Lf3 ==> (r.Move? <==> i == Alpha))
      && (s == HeaderField && r.Move? ==> i == Alpha || i == Dash || i == Input.Colon)
      // exactly one blank after the colon, and a value does not start with one
      && (s == State.Colon ==> (r.Move? <==> i == Input.Blank))
      && (s == State.Blank ==> (r.Move? <==> i == Alpha || i == Dash || i == Input.Colon))
      // a header is committed exactly on the Cr that ends its value
      && ((r.Move? && r.output == EffectAppendHeader) <==> (s == HeaderValue && i == Cr))
  {
  }

  /** The shape of the data part of the table. */
  lemma DataShape(s: State, i: Input)
    ensures var r := Consume(s, i);
      // the data takes every plain byte, except a blank as its first byte
      && (s == Lf2 ==> (r.Move? <==> (IsPlain(i) && i != Input.Blank) || i == BoundaryLike))
      && (s == Data && IsPlain(i) ==> r == Move(Data, EffectAppendData))
      && (s == DataToBoundary && IsPlain(i) ==> r == Move(Data, EffectAppendData))
      // the second Cr entry of DataToBoundary is shadowed by the first
      && (s == DataToBoundary && i == Cr ==> r.next != Cr3)
      // a partial boundary grows on BoundaryLike in Data and DataToBoundary
      && (i == BoundaryLike && (s == Data || s == DataToBoundary || s == Lf2) ==>
            r == Move(DataToBoundary, EffectAppendLikeBoundary))
      // after a full boundary and a dash, only a second dash is accepted
      && (s == EndDash1 ==> (r.Move? <==> i == EndDash))
  {
  }

  /** No transition enters `Cr3`, and only `Cr3` leads to `Lf3`, so neither
      is reachable from the initial state. */
  lemma Cr3Unreachable(s: State, i: Input)
    ensures Consume(s, i).Move? ==> Consume(s, i).next != Cr3
    ensures Consume(s, i).Move? && Consume(s, i).next == Lf3 ==> s == Cr3
  {
  }
}
