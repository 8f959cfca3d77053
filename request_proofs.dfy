/** Properties of the request parser of `Message`, stated on `Run` and
    `Feed`, the functions `Parser.Parse` is proved to compute. */
module RequestProofs {
  import opened Common
  import opened Text
  import opened MessageFsm
  import opened Message

  // -----------------------------------------------------------------------
  // Reading a stream in pieces

  /** Reading `s + t` is reading `s`, then `t` from where `s` left off. */
  lemma {:induction false} FeedConcat(ps: ParseState, s: bytes, t: bytes)
    ensures Feed(ps, s + t) == if Feed(ps, s).Some? then Feed(Feed(ps, s).value, t) else None
    decreases |s|
  {
    if s == [] {
      assert s + t == t;
    } else {
      assert (s + t)[0] == s[0] && (s + t)[1..] == s[1..] + t;
      match StepByte(ps, s[0]) {
        case Stop(_, _) =>
        case Next(q) => FeedConcat(q, s[1..], t);
      }
    }
  }

  /** A call that reads all of `s` without returning goes on with `t` from
      the state `s` left it in. */
  lemma {:induction false} RunConcat(ps: ParseState, s: bytes, t: bytes)
    requires Feed(ps, s).Some?
    ensures Run(ps, s + t) == Run(Feed(ps, s).value, t)
    decreases |s|
  {
    if s == [] {
      assert s + t == t;
    } else {
      assert (s + t)[0] == s[0] && (s + t)[1..] == s[1..] + t;
      RunConcat(StepByte(ps, s[0]).ps, s[1..], t);
    }
  }

  /** The parser never reads ahead: once the bytes of `s` decide a call
      (a request or an error), bytes after them change nothing but the
      count of unread bytes. */
  lemma {:induction false} RunExtend(ps: ParseState, s: bytes, t: bytes)
    requires Run(ps, s).result != Ok(None)
    ensures Run(ps, s + t) == Run(ps, s).(unread := Run(ps, s).unread + |t|)
    decreases |s|
  {
    assert s != [];
    assert (s + t)[0] == s[0] && (s + t)[1..] == s[1..] + t;
    match StepByte(ps, s[0]) {
      case Stop(_, _) =>
      case Next(q) => RunExtend(q, s[1..], t);
    }
  }

  // -----------------------------------------------------------------------
  // Well-formed requests

  /** Bytes the parser classifies as `Alpha`: anything but space, colon,
      CR and LF. */
  predicate AlphaOnly(t: bytes) { forall i | 0 <= i < |t| :: Classify(t[i]) == Alpha }

  /** A method, path, version or header name the parser accepts. */
  predicate IsToken(t: bytes) { |t| > 0 && AlphaOnly(t) }

  /** A header value the parser accepts: it starts with an `Alpha` byte
      and contains no CR or LF (spaces and colons are allowed). */
  predicate IsValue(v: bytes) { |v| > 0 && Classify(v[0]) == Alpha && NoLineBreak(v) }

  predicate WellFormedLines(lines: seq<HeaderLine>) {
    forall k | 0 <= k < |lines| :: IsToken(lines[k].field) && IsValue(lines[k].value)
  }

  /** `<method> <path> <version>\r\n`. */
  function RequestLine(verb: bytes, path: bytes, version: bytes): bytes {
    verb + [SP] + path + [SP] + version + CRLF
  }

  /** A whole request: request line, header lines, empty line, body. */
  function RequestBytes(verb: bytes, path: bytes, version: bytes, lines: seq<HeaderLine>, body: bytes): bytes {
    RequestLine(verb, path, version) + HeaderBlock(lines) + CRLF + body
  }

  /** The state a token continues in, from the state before its first
      byte or a state inside it. */
  function TokenState(m: State): Option<State> {
    match m
    case End => Some(State.Method)
    case Method => Some(State.Method)
    case Blank0 => Some(Path)
    case Path => Some(Path)
    case Blank1 => Some(Version)
    case Version => Some(Version)
    case Lf0 => Some(HeaderField)
    case Lf1 => Some(HeaderField)
    case HeaderField => Some(HeaderField)
    case _ => None
  }

  /** The state after the token `t`: the machine in the token's state and
      `t` appended to that token's accumulator. */
  function Extend(ps: ParseState, t: bytes): ParseState
    requires TokenState(ps.machine).Some?
  {
    var q := ps.(machine := TokenState(ps.machine).value);
    match q.machine
    case Method => q.(verb := q.verb + t)
    case Path => q.(path := q.path + t)
    case Version => q.(version := q.version + t)
    case _ => q.(headerField := q.headerField + t)
  }

  /** Reading `s` and then `t`. */
  lemma FeedThen(ps: ParseState, s: bytes, q: ParseState, t: bytes, r: ParseState)
    requires Feed(ps, s) == Some(q) && Feed(q, t) == Some(r)
    ensures Feed(ps, s + t) == Some(r)
  {
    FeedConcat(ps, s, t);
  }

  /** A byte without output moves the machine and changes nothing else. */
  lemma FeedSilent(ps: ParseState, b: byte, next: State)
    requires ps.machine != Lf2 && ps.machine != Body
    requires Consume(ps.machine, Classify(b)) == Move(next, Silent)
    ensures Feed(ps, [b]) == Some(ps.(machine := next))
  {
    assert StepByte(ps, b) == Next(ps.(machine := next));
  }

  /** One `Alpha` byte of a token. */
  lemma TokenStep(ps: ParseState, b: byte)
    requires TokenState(ps.machine).Some? && Classify(b) == Alpha
    ensures StepByte(ps, b) == Next(Extend(ps, [b]))
  {
    assert Symbol(ps, b) == Alpha;
  }

  /** A token is read byte by byte into its accumulator. */
  lemma {:induction false} FeedToken(ps: ParseState, t: bytes)
    requires TokenState(ps.machine).Some? && IsToken(t)
    ensures Feed(ps, t) == Some(Extend(ps, t))
    decreases |t|
  {
    TokenStep(ps, t[0]);
    var q := Extend(ps, [t[0]]);
    if |t| == 1 {
      assert t == [t[0]];
    } else {
      FeedToken(q, t[1..]);
      assert [t[0]] + t[1..] == t;
      ExtendAppend(ps, [t[0]], t[1..]);
    }
  }

  /** Extending by `s` and then by `t` is extending by `s + t`. */
  lemma ExtendAppend(ps: ParseState, s: bytes, t: bytes)
    requires TokenState(ps.machine).Some?
    ensures TokenState(Extend(ps, s).machine).Some?
    ensures Extend(Extend(ps, s), t) == Extend(ps, s + t)
  {
    match TokenState(ps.machine).value {
      case Method => assert ps.verb + s + t == ps.verb + (s + t);
      case Path => assert ps.path + s + t == ps.path + (s + t);
      case Version => assert ps.version + s + t == ps.version + (s + t);
      case HeaderField => assert ps.headerField + s + t == ps.headerField + (s + t);
      case _ =>
    }
  }

  /** One byte of a header value. */
  lemma ValueStep(ps: ParseState, b: byte)
    requires ps.machine == Blank2 || ps.machine == HeaderValue
    requires b != CR && b != LF
    requires ps.machine == Blank2 ==> Classify(b) == Alpha
    ensures StepByte(ps, b) == Next(ps.(machine := HeaderValue, headerValue := ps.headerValue + [b]))
  {
    assert Symbol(ps, b) == Classify(b);
  }

  /** A header value is read byte by byte into `header_value`. */
  lemma {:induction false} FeedValue(ps: ParseState, v: bytes)
    requires ps.machine == Blank2 || ps.machine == HeaderValue
    requires |v| > 0 && NoLineBreak(v)
    requires ps.machine == Blank2 ==> Classify(v[0]) == Alpha
    ensures Feed(ps, v) == Some(ps.(machine := HeaderValue, headerValue := ps.headerValue + v))
    decreases |v|
  {
    ValueStep(ps, v[0]);
    var q := ps.(machine := HeaderValue, headerValue := ps.headerValue + [v[0]]);
    ValueAppend(ps, v);
    if |v| > 1 {
      FeedValue(q, v[1..]);
    }
    FeedCons(ps, v, q, ps.(machine := HeaderValue, headerValue := ps.headerValue + v));
  }

  lemma ValueAppend(ps: ParseState, v: bytes)
    requires |v| > 0
    ensures var q := ps.(machine := HeaderValue, headerValue := ps.headerValue + [v[0]]);
      && q.(machine := HeaderValue, headerValue := q.headerValue + v[1..])
         == ps.(machine := HeaderValue, headerValue := ps.headerValue + v)
      && (|v| == 1 ==> v[1..] == [] && q == ps.(machine := HeaderValue, headerValue := ps.headerValue + v))
  {
    assert ps.headerValue + [v[0]] + v[1..] == ps.headerValue + v by {
      assert [v[0]] + v[1..] == v;
    }
  }

  /** Reading the first byte of `s`, then the rest. */
  lemma FeedCons(ps: ParseState, s: bytes, q: ParseState, r: ParseState)
    requires |s| > 0 && StepByte(ps, s[0]) == Next(q) && Feed(q, s[1..]) == Some(r)
    ensures Feed(ps, s) == Some(r)
  {
  }

  /** A token and the delimiter after it, which moves the machine on
      without output. */
  lemma FeedTokenThen(ps: ParseState, t: bytes, b: byte, after: State)
    requires TokenState(ps.machine).Some? && IsToken(t)
    requires after != Lf2 && after != Body
    requires Consume(TokenState(ps.machine).value, Classify(b)) == Move(after, Silent)
    ensures Feed(ps, t + [b]) == Some(Extend(ps, t).(machine := after))
  {
    FeedToken(ps, t);
    var q := Extend(ps, t);
    assert q.machine == TokenState(ps.machine).value;
    FeedSilent(q, b, after);
    FeedThen(ps, t, q, [b], q.(machine := after));
  }

  /** The request line fills `method`, `path` and `version` and leaves the
      machine expecting the first header. */
  lemma FeedRequestLine(verb: bytes, path: bytes, version: bytes)
    requires IsToken(verb) && IsToken(path) && IsToken(version)
    ensures Feed(Fresh(Initial), RequestLine(verb, path, version))
         == Some(Fresh(Lf0).(verb := verb, path := path, version := version))
  {
    var p0 := Fresh(Initial);
    var p1 := Fresh(Blank0).(verb := verb);
    var p2 := p1.(machine := Blank1, path := path);
    var p3 := p2.(machine := Lf0, version := version);
    FeedVerb(verb);
    FeedPath(p1, path);
    FeedThen(p0, verb + [SP], p1, path + [SP], p2);
    FeedVersion(p2, version);
    FeedThen(p0, verb + [SP] + (path + [SP]), p2, version + CRLF, p3);
    RequestLineParts(verb, path, version);
  }

  /** The method and the blank after it. */
  lemma FeedVerb(verb: bytes)
    requires IsToken(verb)
    ensures Feed(Fresh(Initial), verb + [SP]) == Some(Fresh(Blank0).(verb := verb))
  {
    FeedTokenThen(Fresh(Initial), verb, SP, Blank0);
    assert [] + verb == verb;
  }

  /** The path and the blank after it. */
  lemma FeedPath(ps: ParseState, path: bytes)
    requires ps.machine == Blank0 && ps.path == [] && IsToken(path)
    ensures Feed(ps, path + [SP]) == Some(ps.(machine := Blank1, path := path))
  {
    FeedTokenThen(ps, path, SP, Blank1);
    assert [] + path == path;
  }

  /** The version and the line break after it. */
  lemma FeedVersion(ps: ParseState, version: bytes)
    requires ps.machine == Blank1 && ps.version == [] && IsToken(version)
    ensures Feed(ps, version + CRLF) == Some(ps.(machine := Lf0, version := version))
  {
    VersionToken(ps, version);
    var q := ps.(machine := Version, version := version);
    FeedEol(q, Cr0, Lf0);
    FeedThen(ps, version, q, CRLF, q.(machine := Lf0));
  }

  lemma VersionToken(ps: ParseState, version: bytes)
    requires ps.machine == Blank1 && ps.version == [] && IsToken(version)
    ensures Feed(ps, version) == Some(ps.(machine := Version, version := version))
  {
    FeedToken(ps, version);
    assert [] + version == version;
  }

  lemma RequestLineParts(verb: bytes, path: bytes, version: bytes)
    ensures verb + [SP] + (path + [SP]) + (version + CRLF) == RequestLine(verb, path, version)
  {
  }

  /** CR then LF, both without output. */
  lemma FeedEol(ps: ParseState, afterCr: State, afterLf: State)
    requires ps.machine != Lf2 && ps.machine != Body && afterCr != Lf2 && afterCr != Body
    requires Consume(ps.machine, Cr) == Move(afterCr, Silent)
    requires Consume(afterCr, Lf) == Move(afterLf, Silent)
    ensures Feed(ps, CRLF) == Some(ps.(machine := afterLf))
  {
    FeedSilent(ps, CR, afterCr);
    FeedSilent(ps.(machine := afterCr), LF, afterLf);
    FeedThen(ps, [CR], ps.(machine := afterCr), [LF], ps.(machine := afterLf));
    assert [CR] + [LF] == CRLF;
  }

  /** One header line inserts its name and value into `headers`. */
  lemma FeedHeaderLine(ps: ParseState, line: HeaderLine)
    requires ps.machine == Lf0 || ps.machine == Lf1
    requires ps.headerField == [] && ps.headerValue == []
    requires IsToken(line.field) && IsValue(line.value)
    ensures Feed(ps, LineBytes(line))
         == Some(ps.(machine := Lf1, headers := ps.headers[line.field := line.value]))
  {
    var f, v := line.field, line.value;
    var p2 := ps.(machine := Blank2, headerField := f);
    var r := p2.(machine := Lf1, headers := p2.headers[f := v], headerField := [], headerValue := []);
    FeedFieldPrefix(ps, f);
    FeedValueLine(p2, v);
    FeedThen(ps, f + [COLON] + [SP], p2, v + CRLF, r);
    HeaderLineState(ps, line);
  }

  /** A header name, its colon and the blank after it. */
  lemma FeedFieldPrefix(ps: ParseState, f: bytes)
    requires ps.machine == Lf0 || ps.machine == Lf1
    requires ps.headerField == [] && IsToken(f)
    ensures Feed(ps, f + [COLON] + [SP]) == Some(ps.(machine := Blank2, headerField := f))
  {
    FeedTokenThen(ps, f, COLON, Colon0);
    var p1 := ps.(machine := Colon0, headerField := f);
    assert Extend(ps, f).(machine := Colon0) == p1 by { assert [] + f == f; }
    FeedSilent(p1, SP, Blank2);
    FeedThen(ps, f + [COLON], p1, [SP], p1.(machine := Blank2));
  }

  /** A header value and the line break that commits the header. */
  lemma FeedValueLine(ps: ParseState, v: bytes)
    requires ps.machine == Blank2 && ps.headerValue == [] && IsValue(v)
    ensures Feed(ps, v + CRLF)
         == Some(ps.(machine := Lf1, headers := ps.headers[ps.headerField := v], headerField := [], headerValue := []))
  {
    FeedValue(ps, v);
    var p3 := ps.(machine := HeaderValue, headerValue := v);
    assert ps.headerValue + v == v;
    var r := p3.(machine := Lf1, headers := p3.headers[p3.headerField := p3.headerValue],
                 headerField := [], headerValue := []);
    HeaderEnd(p3, r);
    FeedThen(ps, v, p3, CRLF, r);
  }

  lemma HeaderLineState(ps: ParseState, line: HeaderLine)
    requires ps.headerField == [] && ps.headerValue == []
    ensures line.field + [COLON] + [SP] + (line.value + CRLF) == LineBytes(line)
    ensures var p2 := ps.(machine := Blank2, headerField := line.field);
      p2.(machine := Lf1, headers := p2.headers[line.field := line.value], headerField := [], headerValue := [])
      == ps.(machine := Lf1, headers := ps.headers[line.field := line.value])
  {
  }

  /** CR commits the header being read; LF then waits for the next one. */
  lemma HeaderEnd(ps: ParseState, r: ParseState)
    requires ps.machine == HeaderValue
    requires r == ps.(machine := Lf1, headers := ps.headers[ps.headerField := ps.headerValue],
                      headerField := [], headerValue := [])
    ensures Feed(ps, CRLF) == Some(r)
  {
    var p1 := ps.(machine := Cr1, headers := ps.headers[ps.headerField := ps.headerValue],
                  headerField := [], headerValue := []);
    assert Symbol(ps, CR) == Cr;
    assert StepByte(ps, CR) == Next(p1);
    assert Feed(ps, [CR]) == Some(p1);
    FeedSilent(p1, LF, Lf1);
    FeedThen(ps, [CR], p1, [LF], r);
    assert [CR] + [LF] == CRLF;
  }

  /** The header lines insert their names and values in order. */
  lemma {:induction false} FeedHeaderBlock(ps: ParseState, lines: seq<HeaderLine>)
    requires ps.machine == Lf1 || (ps.machine == Lf0 && |lines| > 0)
    requires ps.headerField == [] && ps.headerValue == []
    requires WellFormedLines(lines)
    ensures Feed(ps, HeaderBlock(lines)) == Some(ps.(machine := Lf1, headers := InsertAll(ps.headers, lines)))
    decreases |lines|
  {
    if lines != [] {
      FeedHeaderLine(ps, lines[0]);
      var q := ps.(machine := Lf1, headers := ps.headers[lines[0].field := lines[0].value]);
      FeedHeaderBlock(q, lines[1..]);
      FeedThen(ps, LineBytes(lines[0]), q, HeaderBlock(lines[1..]),
               ps.(machine := Lf1, headers := InsertAll(ps.headers, lines)));
    }
  }

  /** The Lf of the empty line: `EffectCheckEnd` takes the announced body
      length, 0 when there is none. */
  lemma CheckEndStep(ps: ParseState)
    requires ps.machine == Cr2 && ps.rest == 0
    ensures StepByte(ps, LF) == Complete(ps.(machine := Lf2, rest := ContentLength(ps.headers)))
  {
    assert Symbol(ps, LF) == Lf;
  }

  /** The empty line ends the head: with no body announced the request is
      complete; otherwise the parser waits for that many body bytes. */
  lemma EndOfHead(ps: ParseState, rest: bytes)
    requires ps.machine == Lf1 && ps.rest == 0
    ensures ContentLength(ps.headers) == 0 ==>
      Run(ps, CRLF + rest)
      == Halt(Ok(Some(Request(ps.verb, ps.path, ps.version, ps.headers, ps.body))), Initial, |rest|)
    ensures ContentLength(ps.headers) > 0 ==>
      Feed(ps, CRLF) == Some(ps.(machine := Lf2, rest := ContentLength(ps.headers)))
  {
    FeedSilent(ps, CR, Cr2);
    var p1 := ps.(machine := Cr2);
    CheckEndStep(p1);
    var p2 := p1.(machine := Lf2, rest := ContentLength(ps.headers));
    if p2.rest == 0 {
      RunConcat(ps, [CR], [LF] + rest);
      RunUnfold(p1, [LF] + rest);
      CrlfSplit(rest);
    } else {
      assert Feed(p1, [LF]) == Some(p2);
      FeedThen(ps, [CR], p1, [LF], p2);
      assert [CR] + [LF] == CRLF;
    }
  }

  lemma CrlfSplit(rest: bytes)
    ensures CRLF + rest == [CR] + ([LF] + rest)
    ensures ([LF] + rest)[0] == LF && ([LF] + rest)[1..] == rest
  {
  }

  /** One byte of the announced body. */
  lemma BodyStep(ps: ParseState, b: byte)
    requires ps.machine == Lf2 || ps.machine == Body
    requires ps.rest > 0
    requires ps.machine == Lf2 ==> Classify(b) == Alpha
    ensures StepByte(ps, b) == Complete(ps.(machine := Body, body := ps.body + [b], rest := ps.rest - 1))
  {
    assert Symbol(ps, b) == Classify(b);
  }

  /** The announced body is read byte by byte; the last one completes the
      request. */
  lemma {:induction false} RunBody(ps: ParseState, d: bytes, tail: bytes)
    requires ps.machine == Lf2 || ps.machine == Body
    requires |d| == ps.rest > 0
    requires ps.machine == Lf2 ==> Classify(d[0]) == Alpha
    ensures Run(ps, d + tail)
         == Halt(Ok(Some(Request(ps.verb, ps.path, ps.version, ps.headers, ps.body + d))), Initial, |tail|)
    decreases |d|
  {
    BodyStep(ps, d[0]);
    var q := ps.(machine := Body, body := ps.body + [d[0]], rest := ps.rest - 1);
    BodyAppend(ps, d, tail);
    RunUnfold(ps, d + tail);
    if |d| > 1 {
      RunBody(q, d[1..], tail);
    }
  }

  lemma BodyAppend(ps: ParseState, d: bytes, tail: bytes)
    requires |d| > 0
    ensures (d + tail)[0] == d[0] && (d + tail)[1..] == d[1..] + tail
    ensures ps.body + [d[0]] + d[1..] == ps.body + d
    ensures |d| == 1 ==> ps.body + [d[0]] == ps.body + d && d[1..] + tail == tail
  {
    assert [d[0]] + d[1..] == d;
  }

  /** A well-formed request is parsed into its parts; the header map is
      the lines inserted in order, and bytes after the announced body are
      left unread for the next call. */
  lemma ParseWellFormed(verb: bytes, path: bytes, version: bytes, lines: seq<HeaderLine>,
                        body: bytes, tail: bytes)
    requires IsToken(verb) && IsToken(path) && IsToken(version)
    requires |lines| > 0 && WellFormedLines(lines)
    requires |body| == ContentLength(HeaderMap(lines))
    requires |body| > 0 ==> Classify(body[0]) == Alpha
    ensures Run(Fresh(Initial), RequestBytes(verb, path, version, lines, body) + tail)
         == Halt(Ok(Some(Request(verb, path, version, HeaderMap(lines), body))), Initial, |tail|)
  {
    var line := RequestLine(verb, path, version);
    FeedRequestLine(verb, path, version);
    var p0 := Fresh(Lf0).(verb := verb, path := path, version := version);
    FeedHeaderBlock(p0, lines);
    var p1 := p0.(machine := Lf1, headers := HeaderMap(lines));
    FeedThen(Fresh(Initial), line, p0, HeaderBlock(lines), p1);
    RequestBytesSplit(verb, path, version, lines, body, tail);
    RunConcat(Fresh(Initial), line + HeaderBlock(lines), CRLF + (body + tail));
    EndOfHead(p1, body + tail);
    if |body| > 0 {
      var p2 := p1.(machine := Lf2, rest := |body|);
      RunConcat(p1, CRLF, body + tail);
      RunBody(p2, body, tail);
      EmptyPrefix(body);
    }
  }

  lemma RequestBytesSplit(verb: bytes, path: bytes, version: bytes, lines: seq<HeaderLine>,
                          body: bytes, tail: bytes)
    ensures RequestBytes(verb, path, version, lines, body) + tail
         == (RequestLine(verb, path, version) + HeaderBlock(lines)) + (CRLF + (body + tail))
  {
  }

  lemma EmptyPrefix(b: bytes)
    ensures [] + b == b
  {
  }

  /** A request without any header is rejected: after the request line
      the machine takes only the first byte of a header name, so the CR of
      an empty line is refused and the machine is left expecting a
      header. */
  lemma NoHeadersRejected(verb: bytes, path: bytes, version: bytes, rest: bytes)
    requires IsToken(verb) && IsToken(path) && IsToken(version)
    ensures Run(Fresh(Initial), RequestLine(verb, path, version) + CRLF + rest)
         == Halt(Err(TransitionImpossible), Lf0, |rest| + 1)
  {
    var line := RequestLine(verb, path, version);
    FeedRequestLine(verb, path, version);
    var p0 := Fresh(Lf0).(verb := verb, path := path, version := version);
    LineThenRest(line, rest);
    RunConcat(Fresh(Initial), line, CRLF + rest);
    RunUnfold(p0, CRLF + rest);
    HeaderExpected(p0);
  }

  lemma LineThenRest(line: bytes, rest: bytes)
    ensures line + CRLF + rest == line + (CRLF + rest)
    ensures (CRLF + rest)[0] == CR && |CRLF + rest| == |rest| + 2
  {
  }

  /** In `Lf0` a CR has no transition. */
  lemma HeaderExpected(ps: ParseState)
    requires ps.machine == Lf0
    ensures StepByte(ps, CR) == Stop(Err(TransitionImpossible), Lf0)
  {
    assert Symbol(ps, CR) == Cr;
  }
}
