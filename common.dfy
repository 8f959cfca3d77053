/** Shared vocabulary of the HTTP model: bytes, the characters the two
    parsers classify, optional values and the one error type. */
module Common {

  /** An octet, as read from the connection or stored in a `Vec<u8>`. */
  newtype byte = x: int | 0 <= x < 256

  type bytes = seq<byte>

  /** A 16-bit status code (`u16`). */
  newtype u16 = x: int | 0 <= x < 0x1_0000

  /** One more than the largest `u64`. */
  const U64_LIMIT: nat := 0x1_0000_0000_0000_0000

  const SP: byte := 32
  const COLON: byte := 58
  const CR: byte := 13
  const LF: byte := 10
  const DASH: byte := 45
  const PLUS: byte := 43
  const EQUALS: byte := 61
  const SEMICOLON: byte := 59
  const CRLF: bytes := [CR, LF]

  datatype Option<+T> = None | Some(value: T)

  /** Everything that makes a parse or a serialisation give up.  The first
      three are the `Err` values the source returns with `?`; the last two
      are the places where the source panics instead. */
  datatype Error =
    | TransitionImpossible   // the state machine has no entry for (state, input)
    | InvalidUtf8            // `String::from_utf8` rejected an accumulated header
    | UnknownStatusCode      // no reason phrase for the response's status code
    | IndexOutOfBounds       // panic: `boundary[boundary.len()]`
    | SliceOutOfBounds       // panic: `&value[1..value.len() - 1]`
  {
    predicate IsPanic() { IndexOutOfBounds? || SliceOutOfBounds? }
  }

  datatype Result<+T> = Ok(value: T) | Err(error: Error)
}
