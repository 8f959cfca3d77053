/** HTTP/1.1 messages (`message/mod.rs`): the request value the parser
    produces, the response the handlers build and serialise, and the
    byte-at-a-time request parser driven by the state machine of
    `MessageFsm`.

    Text the parser accumulates (`method`, `path`, `version`, header names
    and values) is built with `char::from(byte)`, one character per byte,
    so it is kept here as the sequence of those bytes. */
module Message {
  import opened Common
  import opened Text
  import opened MessageFsm

  /** `HTTP_VERSION`, the version a new response carries. */
  const HTTP_VERSION: bytes := [49, 46, 49]  // 1.1

  /** `HTTP/`, the start of a status line. */
  const HTTP_SLASH: bytes := [72, 84, 84, 80, 47]  // HTTP/

  /** `status::OK`. */
  const OK: u16 := 200

  /** `Content-Length`. */
  const CONTENT_LENGTH: bytes := [67, 111, 110, 116, 101, 110, 116, 45, 76, 101, 110, 103, 116, 104]  // Content-Length

  // -----------------------------------------------------------------------
  // Requests

  datatype Request = Request(verb: bytes, path: bytes, version: bytes,
                             headers: map<bytes, bytes>, body: bytes)
  {
    /** `get_header`: the value stored under exactly this name. */
    function GetHeader(key: bytes): (r: Option<bytes>)
      ensures r.Some? <==> key in headers
      ensures r.Some? ==> r.value == headers[key]
    {
      if key in headers then Some(headers[key]) else None
    }

    /** `set_header`: insert or replace one header, leaving everything
        else as it was. */
    function SetHeader(key: bytes, value: bytes): (r: Request)
      ensures r.GetHeader(key) == Some(value)
      ensures forall k | k != key :: r.GetHeader(k) == GetHeader(k)
      ensures r.headers.Keys == headers.Keys + {key}
      ensures r.verb == verb && r.path == path && r.version == version && r.body == body
    {
      this.(headers := headers[key := value])
    }
  }

  /** The body length announced by a header map, as the parser reads it:
      the `Content-Length` value if it parses as a `u64`, and 0 when the
      header is missing or does not parse. */
  function ContentLength(headers: map<bytes, bytes>): nat {
    if CONTENT_LENGTH in headers then
      match ParseU64(headers[CONTENT_LENGTH])
      case Some(n) => n
      case None => 0
    else 0
  }

  // -----------------------------------------------------------------------
  // The request parser, as a function of its state and the bytes it reads

  /** The symbol a byte read from the stream stands for. */
  function Classify(b: byte): (i: Input)
    ensures i != Input.End
    ensures i == Alpha <==> b != SP && b != COLON && b != CR && b != LF
  {
    if b == SP then Blank
    else if b == COLON then Colon
    else if b == CR then Cr
    else if b == LF then Lf
    else Alpha
  }

  /** Everything `Parser::parse` keeps between two bytes: the machine's
      state and the local accumulators of one call. */
  datatype ParseState = ParseState(
    machine: State,
    verb: bytes, path: bytes, version: bytes,
    headerField: bytes, headerValue: bytes,
    headers: map<bytes, bytes>,
    body: bytes,
    rest: nat)   // `rest_body_size`: body bytes still expected

  /** The state at the start of a `parse` call, on a machine in state `m`. */
  function Fresh(m: State): ParseState {
    ParseState(m, [], [], [], [], [], map[], [], 0)
  }

  /** The symbol fed to the machine for byte `b`: once the announced body is
      complete in `Lf2` or `Body`, the byte is dropped and `End` is fed
      instead. */
  function Symbol(ps: ParseState, b: byte): Input {
    if ps.rest == 0 && (ps.machine == Lf2 || ps.machine == Body) then Input.End else Classify(b)
  }

  /** What one byte does: the parse goes on from a new state, or the call
      returns (with the machine left in the given state). */
  datatype Step =
    | Next(ps: ParseState)
    | Stop(result: Result<Option<Request>>, machine: State)

  /** One iteration of the loop of `Parser::parse` on byte `b`. */
  function StepByte(ps: ParseState, b: byte): Step {
    match Consume(ps.machine, Symbol(ps, b))
    case Rejected => Stop(Err(TransitionImpossible), ps.machine)
    case Move(next, out) => Effect(ps.(machine := next), out, b)
  }

  /** A rejected symbol leaves the machine where it was; a request is
      completed only by the Lf of the empty line or by the last announced
      body byte, and hands the machine back in its initial state. */
  lemma StepOutcomes(ps: ParseState, b: byte)
    ensures var r := StepByte(ps, b);
      && (r.Stop? && r.result.Err? ==>
            r.result.error == TransitionImpossible && r.machine == ps.machine
            && Consume(ps.machine, Symbol(ps, b)).Rejected?)
      && (r.Stop? && r.result.Ok? ==> r.result.value.Some? && r.machine == Initial)
      && (r.Stop? && r.result.Ok? ==>
            (ps.machine == Cr2 && b == LF) || ((ps.machine == Lf2 || ps.machine == Body) && ps.rest == 1))
  {
  }

  /** What an output of the machine does to the accumulators; `q` already
      holds the machine's new state. */
  function Effect(q: ParseState, out: Output, b: byte): Step
    requires out == EffectCheckEnd ==> q.machine == Lf2
    requires out == EffectAppendBody ==> q.machine == Body && q.rest > 0
  {
    match out
    case Silent => Next(q)
    case EffectAppendHeader =>
      Next(q.(headers := q.headers[q.headerField := q.headerValue], headerField := [], headerValue := []))
    case EffectAppendHeaderField => Next(q.(headerField := q.headerField + [b]))
    case EffectAppendHeaderValue => Next(q.(headerValue := q.headerValue + [b]))
    case EffectAppendMethod => Next(q.(verb := q.verb + [b]))
    case EffectAppendPath => Next(q.(path := q.path + [b]))
    case EffectAppendVersion => Next(q.(version := q.version + [b]))
    case EffectCheckEnd =>
      Complete(q.(rest := if CONTENT_LENGTH in q.headers then ContentLength(q.headers) else q.rest))
    case EffectAppendBody =>
      Complete(q.(body := q.body + [b], rest := q.rest - 1))
  }

  /** After `EffectCheckEnd` or `EffectAppendBody`: when no body bytes are
      outstanding the request is complete; `End` is fed to the machine,
      which accepts it in both states it can be in here. */
  function Complete(q: ParseState): (r: Step)
    requires q.machine == Lf2 || q.machine == Body
    ensures r.Stop? <==> q.rest == 0
    ensures r.Stop? ==> r.machine == Initial
    ensures r.Stop? ==> r.result == Ok(Some(Request(q.verb, q.path, q.version, q.headers, q.body)))
    ensures r.Next? ==> r.ps == q
  {
    if q.rest == 0 then
      Stop(Ok(Some(Request(q.verb, q.path, q.version, q.headers, q.body))),
           Consume(q.machine, Input.End).next)
    else Next(q)
  }

  /** How a call of `parse` ends: its result, the machine's state
      afterwards and how many bytes of the input it left unread.  A stream
      that ends first gives `Ok(None)`. */
  datatype Halt = Halt(result: Result<Option<Request>>, machine: State, unread: nat)

  /** `parse` from state `ps` on the bytes `s` still to be read. */
  function Run(ps: ParseState, s: bytes): (h: Halt)
    ensures h.unread <= |s|
    decreases |s|
  {
    if s == [] then Halt(Ok(None), ps.machine, 0)
    else
      match StepByte(ps, s[0])
      case Stop(result, m) => Halt(result, m, |s| - 1)
      case Next(q) => Run(q, s[1..])
  }

  /** The state after reading all of `s` without the call returning, or
      `None` if some byte of `s` ends it. */
  function Feed(ps: ParseState, s: bytes): Option<ParseState>
    decreases |s|
  {
    if s == [] then Some(ps)
    else
      match StepByte(ps, s[0])
      case Stop(_, _) => None
      case Next(q) => Feed(q, s[1..])
  }

  /** The ways a call can end.  It reports an incomplete request exactly
      when every byte was read without the call returning; any other
      result is decided by a byte of `s`, and a completed request hands
      the machine back in its initial state. */
  lemma {:induction false} RunOutcomes(ps: ParseState, s: bytes)
    ensures var h := Run(ps, s);
      && (h.result == Ok(None) <==> Feed(ps, s).Some?)
      && (h.result == Ok(None) ==> h.unread == 0 && h.machine == Feed(ps, s).value.machine)
      && (h.result != Ok(None) ==> h.unread < |s|)
      && (h.result.Err? ==> h.result.error == TransitionImpossible)
      && (h.result.Ok? && h.result.value.Some? ==> h.machine == Initial)
    decreases |s|
  {
    if s != [] {
      StepOutcomes(ps, s[0]);
      if StepByte(ps, s[0]).Next? {
        RunOutcomes(StepByte(ps, s[0]).ps, s[1..]);
      }
    }
  }

  /** `Parser`: the machine, kept across calls, reading from a stream whose
      bytes are `stream` and of which the first `offset` are consumed. */
  class Parser {
    const stream: bytes
    var offset: nat
    var machine: State

    /** `Parser::new`: a fresh machine at the start of the stream. */
    constructor(stream: bytes)
      ensures this.stream == stream && offset == 0 && machine == Initial
    {
      this.stream := stream;
      offset := 0;
      machine := Initial;
    }

    /** `Parser::parse`: read one byte at a time until a request is
        complete, the machine rejects a symbol, or the stream ends. */
    method Parse() returns (r: Result<Option<Request>>)
      requires offset <= |stream|
      modifies this
      ensures old(offset) <= offset <= |stream|
      ensures Run(Fresh(old(machine)), stream[old(offset)..]) == Halt(r, machine, |stream| - offset)
    {
      ghost var spec := Run(Fresh(machine), stream[offset..]);
      // the locals of one call (`body`, `headers`, `header_field`, ...,
      // `rest_body_size`), gathered with a copy of the machine's state
      var acc := Fresh(machine);
      var at := offset;
      while true
        invariant offset <= at <= |stream|
        invariant spec == Run(acc, stream[at..])
        decreases |stream| - at
      {
        if at == |stream| {
          offset, machine := at, acc.machine;
          return Ok(None);
        }
        var byte := stream[at];
        RunUnfold(acc, stream[at..]);
        assert stream[at..][0] == byte && stream[at..][1..] == stream[at + 1..];
        ghost var step := StepByte(acc, byte);
        at := at + 1;
        var input :=
          if acc.rest == 0 && (acc.machine == Lf2 || acc.machine == Body) then Input.End
          else Classify(byte);
        var effect := Consume(acc.machine, input);
        if effect.Rejected? {
          offset, machine := at, acc.machine;
          return Err(TransitionImpossible);
        }
        acc := acc.(machine := effect.next);
        assert step == Effect(acc, effect.output, byte);
        var request;
        acc, request := ApplyOutput(acc, effect.output, byte);
        if request.Some? {
          offset, machine := at, acc.machine;
          return Ok(request);
        }
      }
    }

    /** The `match effect?` of `Parser::parse` for one output: update the
        locals and, once the announced body is complete, feed `End` to the
        machine and hand back the request. */
    static method ApplyOutput(acc: ParseState, out: Output, byte: byte)
      returns (next: ParseState, request: Option<Request>)
      requires out == EffectCheckEnd ==> acc.machine == Lf2
      requires out == EffectAppendBody ==> acc.machine == Body && acc.rest > 0
      ensures request.None? ==> Effect(acc, out, byte) == Next(next)
      ensures request.Some? ==> Effect(acc, out, byte) == Stop(Ok(request), next.machine)
    {
      next := acc;
      request := None;
      match out {
        case Silent =>
        case EffectAppendHeader =>
          next := next.(headers := next.headers[next.headerField := next.headerValue]);
          next := next.(headerField := [], headerValue := []);
        case EffectAppendHeaderField =>
          next := next.(headerField := next.headerField + [byte]);
        case EffectAppendHeaderValue =>
          next := next.(headerValue := next.headerValue + [byte]);
        case EffectAppendMethod =>
          next := next.(verb := next.verb + [byte]);
        case EffectAppendPath =>
          next := next.(path := next.path + [byte]);
        case EffectAppendVersion =>
          next := next.(version := next.version + [byte]);
        case EffectCheckEnd =>
          if CONTENT_LENGTH in next.headers {
            next := next.(rest := ContentLength(next.headers));
          }
        case EffectAppendBody =>
          next := next.(body := next.body + [byte]);
          next := next.(rest := next.rest - 1);
      }
      // after these two outputs the request is complete once no body
      // bytes are outstanding
      if (out == EffectCheckEnd || out == EffectAppendBody) && next.rest == 0 {
        request := Some(Request(next.verb, next.path, next.version, next.headers, next.body));
        next := next.(machine := Consume(next.machine, Input.End).next);
      }
    }
  }

  /** One byte of `Run`: the step it takes and where it goes on from. */
  lemma RunUnfold(ps: ParseState, s: bytes)
    requires s != []
    ensures StepByte(ps, s[0]).Stop? ==>
              Run(ps, s) == Halt(StepByte(ps, s[0]).result, StepByte(ps, s[0]).machine, |s| - 1)
    ensures StepByte(ps, s[0]).Next? ==> Run(ps, s) == Run(StepByte(ps, s[0]).ps, s[1..])
  {
  }

  // -----------------------------------------------------------------------
  // Header blocks

  /** One `name: value` header line. */
  datatype HeaderLine = HeaderLine(field: bytes, value: bytes)

  /** `name: value\r\n`. */
  function LineBytes(line: HeaderLine): bytes {
    line.field + [COLON, SP] + line.value + CRLF
  }

  /** The lines written one after another. */
  function HeaderBlock(lines: seq<HeaderLine>): (r: bytes)
    ensures |r| == HeaderBlockLength(lines)
  {
    if lines == [] then [] else LineBytes(lines[0]) + HeaderBlock(lines[1..])
  }

  /** The size of a header block: each line adds four bytes of punctuation
      to its name and value. */
  function HeaderBlockLength(lines: seq<HeaderLine>): nat {
    if lines == [] then 0 else |lines[0].field| + |lines[0].value| + 4 + HeaderBlockLength(lines[1..])
  }

  /** `m` with the lines inserted in order, as `HashMap::insert` does: a
      later line with the same name replaces an earlier one. */
  function InsertAll(m: map<bytes, bytes>, lines: seq<HeaderLine>): (r: map<bytes, bytes>)
    ensures r.Keys == m.Keys + set k | 0 <= k < |lines| :: lines[k].field
    decreases |lines|
  {
    if lines == [] then m
    else
      var r := InsertAll(m[lines[0].field := lines[0].value], lines[1..]);
      assert (set k | 0 <= k < |lines| :: lines[k].field)
          == {lines[0].field} + set k | 0 <= k < |lines[1..]| :: lines[1..][k].field by {
        forall k | 0 <= k < |lines| ensures lines[k].field in {lines[0].field} + set k | 0 <= k < |lines[1..]| :: lines[1..][k].field {
          if k > 0 { assert lines[k] == lines[1..][k - 1]; }
        }
      }
      r
  }

  /** The header map a sequence of header lines denotes. */
  function HeaderMap(lines: seq<HeaderLine>): map<bytes, bytes> {
    InsertAll(map[], lines)
  }

  // -----------------------------------------------------------------------
  // Responses

  /** A response under construction; handlers set its fields in place. */
  class Response {
    var version: bytes
    var code: u16
    var headers: map<bytes, bytes>
    var body: bytes

    /** `Response::new`: HTTP 1.1, status OK, no headers, empty body. */
    constructor()
      ensures version == HTTP_VERSION && code == OK && headers == map[] && body == []
    {
      version := HTTP_VERSION;
      body := [];
      code := OK;
      headers := map[];
    }

    /** `Response::with_text`: a new response with this code and body. */
    static method WithText(code: u16, text: bytes) returns (r: Response)
      ensures fresh(r)
      ensures r.version == HTTP_VERSION && r.code == code && r.headers == map[] && r.body == text
    {
      r := new Response();
      r.code := code;
      r.SetBody(text);
    }

    /** `set_body`: replace the body, nothing else. */
    method SetBody(body: bytes)
      modifies this
      ensures this.body == body
      ensures version == old(version) && code == old(code) && headers == old(headers)
    {
      this.body := body;
    }

    /** `set_code`: replace the status code, nothing else. */
    method SetCode(code: u16)
      modifies this
      ensures this.code == code
      ensures version == old(version) && body == old(body) && headers == old(headers)
    {
      this.code := code;
    }

    /** `get_header`. */
    function GetHeader(key: bytes): (r: Option<bytes>)
      reads this
      ensures r.Some? <==> key in headers
      ensures r.Some? ==> r.value == headers[key]
    {
      if key in headers then Some(headers[key]) else None
    }

    /** `set_header`: afterwards this name maps to `value`, every other
        name to what it mapped to before, and nothing else changed. */
    method SetHeader(key: bytes, value: bytes)
      modifies this
      ensures GetHeader(key) == Some(value)
      ensures forall k | k != key :: GetHeader(k) == old(GetHeader(k))
      ensures headers.Keys == old(headers.Keys) + {key}
      ensures version == old(version) && code == old(code) && body == old(body)
    {
      headers := headers[key := value];
    }

    /** `to_bytes`.  The reason phrases of `status::get_code_reason` and the
        order in which the `HashMap` yields the headers are parameters:
        `order` lists every header name once.  Unknown codes are an error;
        otherwise the bytes are those of `Wire`. */
    method ToBytes(reasons: map<u16, bytes>, order: seq<bytes>) returns (r: Result<bytes>)
      requires Enumerates(order, headers)
      ensures r.Err? <==> code !in reasons
      ensures r.Err? ==> r.error == UnknownStatusCode
      ensures r.Ok? ==> r.value == Wire(version, code, reasons[code], Lines(order, headers), body)
    {
      if code !in reasons {
        return Err(UnknownStatusCode);
      }
      var msg := HTTP_SLASH + version + [SP] + Decimal(code as nat) + [SP] + reasons[code] + CRLF;
      ghost var status := msg;
      ghost var lines: seq<HeaderLine> := [];
      for i := 0 to |order|
        invariant lines == Lines(order[..i], headers)
        invariant msg == status + HeaderBlock(lines)
      {
        var key := order[i];
        ghost var line := HeaderLine(key, headers[key]);
        var text := key + [COLON, SP] + headers[key] + CRLF;
        assert text == LineBytes(line);
        msg := msg + text;
        LinesPrefix(order, i, headers);
        HeaderBlockSnoc(lines, line);
        lines := lines + [line];
      }
      assert order[..|order|] == order;
      msg := msg + CRLF;
      r := Ok(msg + body);
    }
  }

  /** `order` lists the names of `headers`, each exactly once. */
  predicate Enumerates(order: seq<bytes>, headers: map<bytes, bytes>) {
    (forall i, j | 0 <= i < j < |order| :: order[i] != order[j])
    && (forall i | 0 <= i < |order| :: order[i] in headers)
    && (forall k | k in headers :: k in order)
  }

  /** The header lines in the order the names are listed. */
  function Lines(order: seq<bytes>, headers: map<bytes, bytes>): seq<HeaderLine>
    requires forall i | 0 <= i < |order| :: order[i] in headers
  {
    if order == [] then [] else [HeaderLine(order[0], headers[order[0]])] + Lines(order[1..], headers)
  }

  /** One more name of `order` adds its line. */
  lemma LinesPrefix(order: seq<bytes>, i: nat, headers: map<bytes, bytes>)
    requires i < |order| && forall j | 0 <= j < |order| :: order[j] in headers
    ensures Lines(order[..i + 1], headers) == Lines(order[..i], headers) + [HeaderLine(order[i], headers[order[i]])]
  {
    assert order[..i + 1] == order[..i] + [order[i]];
    LinesSnoc(order[..i], order[i], headers);
  }

  lemma LinesSnoc(order: seq<bytes>, key: bytes, headers: map<bytes, bytes>)
    requires forall i | 0 <= i < |order| :: order[i] in headers
    requires key in headers
    ensures Lines(order + [key], headers) == Lines(order, headers) + [HeaderLine(key, headers[key])]
  {
    if order != [] {
      assert (order + [key])[1..] == order[1..] + [key];
      LinesSnoc(order[1..], key, headers);
    }
  }

  /** Inserting the lines of `order` into `m`: the names listed take
      their values from `headers`, every other name keeps its value. */
  lemma {:induction false} InsertLines(m: map<bytes, bytes>, order: seq<bytes>, headers: map<bytes, bytes>)
    requires forall i | 0 <= i < |order| :: order[i] in headers
    ensures var r := InsertAll(m, Lines(order, headers));
      && (forall k :: k in r <==> k in m || k in order)
      && (forall k | k in order :: r[k] == headers[k])
      && (forall k | k in m && k !in order :: r[k] == m[k])
    decreases |order|
  {
    if order != [] {
      var lines := Lines(order, headers);
      assert lines[0] == HeaderLine(order[0], headers[order[0]]);
      assert lines[1..] == Lines(order[1..], headers);
      InsertLines(m[order[0] := headers[order[0]]], order[1..], headers);
      forall k ensures k in order <==> k == order[0] || k in order[1..] {
        if k in order {
          var i :| 0 <= i < |order| && order[i] == k;
          if i > 0 { assert order[1..][i - 1] == k; }
        }
      }
    }
  }

  /** The header lines `ToBytes` writes, read back as `HashMap::insert`
      would, give exactly the response's headers. */
  lemma HeaderMapOfLines(order: seq<bytes>, headers: map<bytes, bytes>)
    requires Enumerates(order, headers)
    ensures HeaderMap(Lines(order, headers)) == headers
  {
    InsertLines(map[], order, headers);
  }

  lemma {:induction false} HeaderBlockSnoc(lines: seq<HeaderLine>, line: HeaderLine)
    ensures HeaderBlock(lines + [line]) == HeaderBlock(lines) + LineBytes(line)
  {
    if lines != [] {
      assert (lines + [line])[1..] == lines[1..] + [line];
      HeaderBlockSnoc(lines[1..], line);
    }
  }

  /** `HTTP/<version> <code> <reason>\r\n`. */
  function StatusLine(version: bytes, code: u16, reason: bytes): bytes {
    HTTP_SLASH + version + [SP] + Decimal(code as nat) + [SP] + reason + CRLF
  }

  /** A serialised response: status line, header lines, an empty line and
      the body. */
  function Wire(version: bytes, code: u16, reason: bytes, lines: seq<HeaderLine>, body: bytes): bytes {
    StatusLine(version, code, reason) + HeaderBlock(lines) + CRLF + body
  }
}
