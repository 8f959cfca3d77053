/** The two requests of the parser's unit tests in `message/mod.rs`,
    parsed by the model. */
module RequestExamples {
  import opened Common
  import opened Text
  import opened Methods
  import opened MessageFsm
  import opened Message
  import opened RequestProofs

  const ROOT: bytes := [47]  // /
  const USER: bytes := [47, 117, 115, 101, 114]  // /user
  const HTTP11: bytes := [72, 84, 84, 80, 47, 49, 46, 49]  // HTTP/1.1
  const HOST: bytes := [72, 111, 115, 116]  // Host
  const LOCALHOST: bytes := [49, 50, 55, 46, 48, 46, 48, 46, 49, 58, 51, 48, 48, 48]  // 127.0.0.1:3000
  const USER_AGENT: bytes := [85, 115, 101, 114, 45, 65, 103, 101, 110, 116]  // User-Agent
  const CURL: bytes := [99, 117, 114, 108, 47, 55, 46, 54, 52, 46, 49]  // curl/7.64.1
  const ACCEPT: bytes := [65, 99, 99, 101, 112, 116]  // Accept
  const ANY: bytes := [42, 47, 42]  // */*
  const CONTENT_TYPE: bytes := [67, 111, 110, 116, 101, 110, 116, 45, 84, 121, 112, 101]  // Content-Type
  const JSON: bytes := [97, 112, 112, 108, 105, 99, 97, 116, 105, 111, 110, 47, 106, 115, 111, 110]  // application/json
  const TWENTY_THREE: bytes := [50, 51]  // 23
  /** `{"name":"tom","age":21}` */
  const TOM: bytes := [123, 34, 110, 97, 109, 101, 34, 58, 34, 116, 111, 109, 34, 44, 34, 97, 103, 101, 34, 58, 50, 49, 125]

  /** The headers curl sends in both tests. */
  const CURL_LINES: seq<HeaderLine> :=
    [HeaderLine(HOST, LOCALHOST), HeaderLine(USER_AGENT, CURL), HeaderLine(ACCEPT, ANY)]

  /** The headers of the POST test: curl's, then the JSON type and length. */
  const POST_LINES: seq<HeaderLine> :=
    CURL_LINES + [HeaderLine(CONTENT_TYPE, JSON), HeaderLine(CONTENT_LENGTH, TWENTY_THREE)]

  lemma CurlLinesWellFormed()
    ensures WellFormedLines(CURL_LINES)
  {
    HostLine();
    AgentLine();
    AcceptLine();
  }

  lemma HostLine() ensures IsToken(HOST) && IsValue(LOCALHOST) { }
  lemma AgentLine() ensures IsToken(USER_AGENT) && IsValue(CURL) { }
  lemma AcceptLine() ensures IsToken(ACCEPT) && IsValue(ANY) { }
  lemma TypeLine() ensures IsToken(CONTENT_TYPE) && IsValue(JSON) { }
  lemma LengthLine() ensures IsToken(CONTENT_LENGTH) && IsValue(TWENTY_THREE) { }

  lemma PostLinesWellFormed()
    ensures WellFormedLines(POST_LINES)
  {
    CurlLinesWellFormed();
    TypeLine();
    LengthLine();
  }

  /** `parse_request_get`: `GET / HTTP/1.1`, three headers, no body; the
      whole stream is read, and the method, path and each header are
      found in the request. */
  lemma ParseRequestGet()
    ensures Run(Fresh(Initial), RequestBytes(Token(Get), ROOT, HTTP11, CURL_LINES, []))
         == Halt(Ok(Some(Request(Token(Get), ROOT, HTTP11, HeaderMap(CURL_LINES), []))), Initial, 0)
    ensures var r := Request(Token(Get), ROOT, HTTP11, HeaderMap(CURL_LINES), []);
      && GetMethods(r.verb) == Some(Get) && r.path == ROOT
      && r.GetHeader(HOST) == Some(LOCALHOST)
      && r.GetHeader(USER_AGENT) == Some(CURL)
      && r.GetHeader(ACCEPT) == Some(ANY)
  {
    CurlLinesWellFormed();
    assert IsToken(Token(Get)) && IsToken(ROOT) && IsToken(HTTP11);
    CurlHeaders();
    ParseWellFormed(Token(Get), ROOT, HTTP11, CURL_LINES, [], []);
    EmptyTail(RequestBytes(Token(Get), ROOT, HTTP11, CURL_LINES, []));
    GetFields();
  }

  lemma GetFields()
    ensures var r := Request(Token(Get), ROOT, HTTP11, HeaderMap(CURL_LINES), []);
      && GetMethods(r.verb) == Some(Get) && r.path == ROOT
      && r.GetHeader(HOST) == Some(LOCALHOST)
      && r.GetHeader(USER_AGENT) == Some(CURL)
      && r.GetHeader(ACCEPT) == Some(ANY)
  {
    CurlHeaders();
  }

  /** What the GET test reads back from the request. */
  lemma CurlHeaders()
    ensures GetMethods(Token(Get)) == Some(Get)
    ensures HeaderMap(CURL_LINES) == map[HOST := LOCALHOST, USER_AGENT := CURL, ACCEPT := ANY]
    ensures ContentLength(HeaderMap(CURL_LINES)) == 0
  {
    TokenRoundTrip(Get);
    var m0: map<bytes, bytes> := map[];
    var l := CURL_LINES;
    assert InsertAll(m0, l) == InsertAll(m0[HOST := LOCALHOST], l[1..]);
    assert InsertAll(m0[HOST := LOCALHOST], l[1..])
        == InsertAll(m0[HOST := LOCALHOST][USER_AGENT := CURL], l[2..]) by { assert l[1..][1..] == l[2..]; }
    assert InsertAll(m0[HOST := LOCALHOST][USER_AGENT := CURL], l[2..])
        == m0[HOST := LOCALHOST][USER_AGENT := CURL][ACCEPT := ANY] by { assert l[2..][1..] == []; }
  }

  lemma EmptyTail(s: bytes)
    ensures s + [] == s
  {
  }

  /** `parse_request_post`: `POST /user HTTP/1.1`, five headers and the
      23-byte JSON body `Content-Length` announces. */
  lemma ParseRequestPost()
    ensures Run(Fresh(Initial), RequestBytes(Token(Post), USER, HTTP11, POST_LINES, TOM))
         == Halt(Ok(Some(Request(Token(Post), USER, HTTP11, HeaderMap(POST_LINES), TOM))), Initial, 0)
    ensures var r := Request(Token(Post), USER, HTTP11, HeaderMap(POST_LINES), TOM);
      && GetMethods(r.verb) == Some(Post) && r.path == USER
      && r.GetHeader(HOST) == Some(LOCALHOST)
      && r.GetHeader(USER_AGENT) == Some(CURL)
      && r.GetHeader(ACCEPT) == Some(ANY)
      && r.GetHeader(CONTENT_TYPE) == Some(JSON)
      && r.GetHeader(CONTENT_LENGTH) == Some(TWENTY_THREE)
      && r.body == TOM
  {
    PostLinesWellFormed();
    assert IsToken(Token(Post)) && IsToken(USER) && IsToken(HTTP11);
    PostHeaders();
    assert Classify(TOM[0]) == Alpha;
    ParseWellFormed(Token(Post), USER, HTTP11, POST_LINES, TOM, []);
    EmptyTail(RequestBytes(Token(Post), USER, HTTP11, POST_LINES, TOM));
    PostFields();
  }

  lemma PostFields()
    ensures var r := Request(Token(Post), USER, HTTP11, HeaderMap(POST_LINES), TOM);
      && GetMethods(r.verb) == Some(Post) && r.path == USER
      && r.GetHeader(HOST) == Some(LOCALHOST)
      && r.GetHeader(USER_AGENT) == Some(CURL)
      && r.GetHeader(ACCEPT) == Some(ANY)
      && r.GetHeader(CONTENT_TYPE) == Some(JSON)
      && r.GetHeader(CONTENT_LENGTH) == Some(TWENTY_THREE)
      && r.body == TOM
  {
    PostHeaders();
  }

  /** What the POST test reads back from the request. */
  lemma PostHeaders()
    ensures GetMethods(Token(Post)) == Some(Post)
    ensures HeaderMap(POST_LINES)
         == map[HOST := LOCALHOST, USER_AGENT := CURL, ACCEPT := ANY,
                CONTENT_TYPE := JSON, CONTENT_LENGTH := TWENTY_THREE]
    ensures ContentLength(HeaderMap(POST_LINES)) == 23
  {
    TokenRoundTrip(Post);
    var m0: map<bytes, bytes> := map[];
    var l := POST_LINES;
    var m1 := m0[HOST := LOCALHOST];
    var m2 := m1[USER_AGENT := CURL];
    var m3 := m2[ACCEPT := ANY];
    var m4 := m3[CONTENT_TYPE := JSON];
    var m5 := m4[CONTENT_LENGTH := TWENTY_THREE];
    assert InsertAll(m0, l) == InsertAll(m1, l[1..]);
    assert InsertAll(m1, l[1..]) == InsertAll(m2, l[2..]) by { assert l[1..][1..] == l[2..]; }
    assert InsertAll(m2, l[2..]) == InsertAll(m3, l[3..]) by { assert l[2..][1..] == l[3..]; }
    assert InsertAll(m3, l[3..]) == InsertAll(m4, l[4..]) by { assert l[3..][1..] == l[4..]; }
    assert InsertAll(m4, l[4..]) == m5 by { assert l[4..][1..] == []; }
    assert ParseU64(TWENTY_THREE) == Some(23) by {
      assert TWENTY_THREE[..1] == [50];
      assert DecimalValue([50]) == 2 by { assert [50][..0] == []; }
    }
  }
}
